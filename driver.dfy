/** The browser as the bot sees it: every query of Selenium becomes an
    oracle that either returns a value or raises one of the exceptions the
    bot distinguishes. Handles are opaque element identities. */
module Driver {
  import opened Wrappers

  /** The exceptions the bot reacts to. NoSuchElement, StaleElement and
      WebDriver are all `WebDriverException`s; Other is any other exception.
      `msg` is the text `str(e)` of the exception. */
  datatype Error =
    | NoSuchElement(msg: string)
    | StaleElement(msg: string)
    | WebDriver(msg: string)
    | Other(msg: string)
  {
    /** Caught by `except WebDriverException`. */
    predicate IsWebDriverException() {
      !Other?
    }
  }

  /** The result of a Python call that may raise. */
  datatype Outcome<+T> = Returned(value: T) | Raised(error: Error)

  type Handle = nat

  /** What the JavaScript ancestor walk can see of an element. */
  datatype Node = Node(parent: Option<Handle>, testId: Option<string>, role: Option<string>)

  /** Selenium's `By` strategies used by the selector table. */
  datatype By = Id | CssSelector | XPath

  datatype Locator = Locator(strategy: By, value: string)

  /** Where a query runs: the whole document (the driver) or below an element. */
  datatype Scope = Document | Within(element: Handle)

  /** Python truthiness of an attribute value: present and not empty. */
  predicate Truthy(a: Option<string>) {
    a.Some? && a.value != []
  }

  /** One snapshot of the live page.
      - findElement / findElements: Selenium's `find_element(s)` in a scope;
      - text, attribute: `element.text` and `element.get_attribute(name)`;
      - dom: parent links and attributes read by `execute_script`;
      - identity: `str(id(element))`. */
  datatype Page = Page(
    findElement: (Scope, Locator) -> Outcome<Handle>,
    findElements: (Scope, Locator) -> Outcome<seq<Handle>>,
    text: Handle -> Outcome<string>,
    attribute: (Handle, string) -> Outcome<Option<string>>,
    dom: map<Handle, Node>,
    identity: Handle -> string)

  /** Every parent link of the DOM leads to an element of the DOM. */
  ghost predicate Closed(dom: map<Handle, Node>) {
    forall h :: h in dom && dom[h].parent.Some? ==> dom[h].parent.value in dom
  }
}
