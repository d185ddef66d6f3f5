/** The sign-in page of the auth app: where it sends the user back to, the app label it shows,
    and when it shows the form rather than redirecting. */
module SignIn {
  import opened Strings

  /** `getRedirectUrl`: each known app's landing page, `/` for anything else. */
  function RedirectUrl(returnTo: string): (url: string)
    ensures url in {"/pxel", "/expense-tracker/dashboard", "/"}
    ensures returnTo == "pxel" <==> url == "/pxel"
    ensures returnTo == "expense-tracker" <==> url == "/expense-tracker/dashboard"
  {
    if returnTo == "pxel" then "/pxel"
    else if returnTo == "expense-tracker" then "/expense-tracker/dashboard"
    else "/"
  }

  /** What `RETURN_TO_LABELS[returnTo]` can be: an own label, an inherited method (a function),
      or `Object.prototype` itself (through `__proto__`). All three are truthy. */
  datatype LabelValue = LabelText(text: string) | InheritedMethod | PrototypeObject

  /** `RETURN_TO_LABELS[returnTo]`; `None` is `undefined`. */
  function KnownLabel(returnTo: string): (r: Option<LabelValue>)
    ensures r.Some? <==> returnTo in {"pxel", "expense-tracker"} || returnTo in PrototypeKeys
    ensures r.Some? && r.value.LabelText? <==> returnTo in {"pxel", "expense-tracker"}
  {
    if returnTo == "pxel" then Some(LabelText("Pxel"))
    else if returnTo == "expense-tracker" then Some(LabelText("Expense Tracker"))
    else if returnTo == "__proto__" then Some(PrototypeObject)
    else if returnTo in PrototypeKeys then Some(InheritedMethod)
    else None
  }

  /** `returnTo ? (RETURN_TO_LABELS[returnTo] || returnTo) : null`. */
  function AppLabel(returnTo: string): (heading: Option<LabelValue>)
    ensures heading.None? <==> returnTo == []
    ensures returnTo != [] && KnownLabel(returnTo).None? ==> heading == Some(LabelText(returnTo))
    ensures KnownLabel(returnTo).Some? ==> heading == KnownLabel(returnTo)
  {
    if returnTo == [] then None
    else if KnownLabel(returnTo).Some? then KnownLabel(returnTo)
    else Some(LabelText(returnTo))
  }

  /** What the heading `{appLabel}` puts on the page: text, nothing (React renders no
      function child), or an exception (an object is not a valid React child). */
  datatype Heading = ShowsText(text: string) | ShowsNothing | RenderThrows

  function HeadingOf(v: LabelValue): (h: Heading)
    ensures h.ShowsText? <==> v.LabelText?
    ensures h.ShowsText? ==> h.text == v.text
    ensures v.PrototypeObject? <==> h.RenderThrows?
  {
    match v
    case LabelText(t) => ShowsText(t)
    case InheritedMethod => ShowsNothing
    case PrototypeObject => RenderThrows
  }

  /** `?returnTo=toString` shows an empty heading; `?returnTo=__proto__` breaks the page. */
  lemma InheritedKeyHeadings()
    ensures HeadingOf(AppLabel("toString").value) == ShowsNothing
    ensures HeadingOf(AppLabel("__proto__").value) == RenderThrows
  {
    assert "toString" in PrototypeKeys;
  }

  /** The lookup restricted to the object's own keys
      (`Object.hasOwn(RETURN_TO_LABELS, returnTo)`). */
  function OwnLabel(returnTo: string): (heading: Option<string>)
    ensures heading.None? <==> returnTo == []
    ensures returnTo == "pxel" ==> heading == Some("Pxel")
    ensures returnTo == "expense-tracker" ==> heading == Some("Expense Tracker")
    ensures returnTo !in {"pxel", "expense-tracker"} ==> heading == (if returnTo == [] then None else Some(returnTo))
  {
    if returnTo == [] then None
    else if returnTo == "pxel" then Some("Pxel")
    else if returnTo == "expense-tracker" then Some("Expense Tracker")
    else Some(returnTo)
  }

  /** With own keys only, every shown form has a text heading, and it agrees with the source
      on every `returnTo` that is not an inherited name. */
  lemma OwnLabelAgrees(returnTo: string)
    ensures returnTo !in PrototypeKeys && returnTo != [] ==>
      AppLabel(returnTo) == Some(LabelText(OwnLabel(returnTo).value))
    ensures returnTo != [] ==> OwnLabel(returnTo).Some? && OwnLabel(returnTo).value != []
  {
  }

  /** The form is hidden while the session loads, once signed in, and without a `returnTo`. */
  predicate ShowsForm(sessionLoading: bool, hasSession: bool, returnTo: string) {
    !sessionLoading && !hasSession && returnTo != []
  }

  /** The effect that runs once the session query settles: where the page sends the browser. */
  function SessionRedirect(sessionLoading: bool, hasSession: bool, returnTo: string): (target: Option<string>)
    ensures sessionLoading ==> target.None?
    ensures !sessionLoading && hasSession ==> target == Some(RedirectUrl(returnTo))
    ensures !sessionLoading && !hasSession && returnTo == [] ==> target == Some("/")
  {
    if sessionLoading then None
    else if hasSession then Some(RedirectUrl(returnTo))
    else if returnTo == [] then Some("/")
    else None
  }

  /** Once the session has loaded, the page either shows the form or redirects, never both and
      never neither. */
  lemma FormOrRedirect(sessionLoading: bool, hasSession: bool, returnTo: string)
    requires !sessionLoading
    ensures ShowsForm(sessionLoading, hasSession, returnTo) <==> SessionRedirect(sessionLoading, hasSession, returnTo).None?
  {
  }

  /** Whenever the form is shown it has a label, and the heading shows it as text exactly
      when `returnTo` is not an inherited name; the text is never empty. */
  lemma FormHasLabel(sessionLoading: bool, hasSession: bool, returnTo: string)
    requires ShowsForm(sessionLoading, hasSession, returnTo)
    ensures AppLabel(returnTo).Some?
    ensures HeadingOf(AppLabel(returnTo).value).ShowsText? <==> returnTo !in PrototypeKeys
    ensures AppLabel(returnTo).value.LabelText? ==> AppLabel(returnTo).value.text != []
  {
  }
}
