/** The selector table and the ranked fallback that resolves a logical UI
    role to an element by trying its selector keys in order. */
module Selectors {
  import opened Wrappers
  import opened Driver

  /** The keys of the table `SELECTORS`, one per logical UI role and
      fallback rank. */
  datatype Key =
    | SidePanel | SidePanelAlt | SidePanelAlt2
    | UnreadBadge | UnreadBadgeAlt
    | ChatRow | ChatRowAlt | ChatRowAlt2
    | MessagePanel | MessagePanelAlt
    | IncomingMsgText | IncomingMsgTextAlt | IncomingMsgTextAlt2
    | ContactHeader | ContactHeaderAlt | ContactHeaderAlt2
    | MessageInput | MessageInputAlt | MessageInputAlt2 | MessageInputAlt3

  /** The table `SELECTORS`: the strategy and query of each key. */
  function Selector(key: Key): Locator {
    match key
    case SidePanel => Locator(Id, "side")
    case SidePanelAlt => Locator(CssSelector, "div[data-testid=\"chat-list\"]")
    case SidePanelAlt2 => Locator(CssSelector, "div[role=\"application\"]")
    case UnreadBadge => Locator(CssSelector, "span[data-testid=\"icon-unread-count\"]")
    case UnreadBadgeAlt => Locator(XPath,
      "//span[contains(@aria-label, \"no le\") or contains(@aria-label, \"unread\") "
      + "or contains(@aria-label, \"sin leer\")]")
    case ChatRow => Locator(XPath, ".//ancestor::div[@data-testid=\"cell-frame-container\"]")
    case ChatRowAlt => Locator(XPath, ".//ancestor::div[@role=\"listitem\"]")
    case ChatRowAlt2 => Locator(XPath, ".//ancestor::div[@role=\"row\" or @role=\"option\"]")
    case MessagePanel => Locator(CssSelector, "div[data-testid=\"conversation-panel-messages\"]")
    case MessagePanelAlt => Locator(CssSelector, "div[role=\"application\"] div[role=\"row\"]")
    case IncomingMsgText => Locator(CssSelector, "div.message-in span.selectable-text span")
    case IncomingMsgTextAlt => Locator(CssSelector,
      "div.message-in span.copyable-text span.selectable-text span")
    case IncomingMsgTextAlt2 => Locator(XPath,
      "//div[contains(@class, \"message-in\")]//div[@data-testid=\"msg-container\"]//span[@dir=\"ltr\"]")
    case ContactHeader => Locator(CssSelector,
      "header span[data-testid=\"conversation-info-header-chat-title\"] span")
    case ContactHeaderAlt => Locator(CssSelector, "header div[data-testid=\"conversation-title\"] span")
    case ContactHeaderAlt2 => Locator(CssSelector, "header span[title]")
    case MessageInput => Locator(CssSelector,
      "div[data-testid=\"conversation-compose-box-input\"] div[contenteditable=\"true\"]")
    case MessageInputAlt => Locator(CssSelector, "footer div[contenteditable=\"true\"][role=\"textbox\"]")
    case MessageInputAlt2 => Locator(CssSelector, "footer div[contenteditable=\"true\"]")
    case MessageInputAlt3 => Locator(XPath, "//div[@contenteditable=\"true\"][@data-tab=\"10\"]")
  }

  // The key lists the bot passes for each role, in priority order.
  const SidePanelKeys: seq<Key> := [SidePanel, SidePanelAlt, SidePanelAlt2]
  const UnreadBadgeKeys: seq<Key> := [UnreadBadge, UnreadBadgeAlt]
  const ChatRowKeys: seq<Key> := [ChatRow, ChatRowAlt, ChatRowAlt2]
  const MessagePanelKeys: seq<Key> := [MessagePanel, MessagePanelAlt]
  const IncomingTextKeys: seq<Key> := [IncomingMsgText, IncomingMsgTextAlt, IncomingMsgTextAlt2]
  const ContactHeaderKeys: seq<Key> := [ContactHeader, ContactHeaderAlt, ContactHeaderAlt2]
  const MessageInputKeys: seq<Key> := [MessageInput, MessageInputAlt, MessageInputAlt2, MessageInputAlt3]

  /** What one strategy contributes: a hit ends the search, a skip moves on,
      a fatal error escapes the search. */
  datatype Attempt<+T> = Hit(value: T) | Skip | Fatal(error: Error)

  /** The exceptions the fallback swallows. (It also swallows `KeyError`, a
      key missing from the table; every `Key` has an entry, so that case
      does not arise.) */
  predicate Swallowed(e: Error) {
    e.NoSuchElement? || e.StaleElement?
  }

  /** The result of the search when `a` is the first attempt that is not a skip. */
  function Settle<T>(a: Attempt<T>): Outcome<Option<T>>
    requires !a.Skip?
  {
    match a
    case Hit(v) => Returned(Some(v))
    case Fatal(e) => Raised(e)
  }

  /** The ranked fallback: the first attempt that is not a skip decides;
      when every attempt skips, the answer is "nothing" and nothing is raised. */
  function Resolve<T>(attempts: seq<Attempt<T>>): Outcome<Option<T>>
  {
    if attempts == [] then Returned(None)
    else match attempts[0]
      case Skip => Resolve(attempts[1..])
      case _ => Settle(attempts[0])
  }

  /** Attempt `i` is the first one that is not a skip. */
  ghost predicate Decides<T>(attempts: seq<Attempt<T>>, i: int) {
    0 <= i < |attempts| && !attempts[i].Skip?
    && forall j :: 0 <= j < i ==> attempts[j].Skip?
  }

  /** Earlier strategies that skip are ignored: the first deciding attempt
      gives the result. */
  lemma {:induction false} ResolveFirstDecides<T>(attempts: seq<Attempt<T>>, i: int)
    requires Decides(attempts, i)
    ensures Resolve(attempts) == Settle(attempts[i])
  {
    if i > 0 {
      assert attempts[0].Skip?;
      ResolveFirstDecides(attempts[1..], i - 1);
    }
  }

  /** The search finds nothing exactly when every strategy skips. */
  lemma {:induction false} ResolveNothing<T>(attempts: seq<Attempt<T>>)
    ensures Resolve(attempts) == Returned(None)
        <==> forall j :: 0 <= j < |attempts| ==> attempts[j].Skip?
  {
    if attempts != [] {
      ResolveNothing(attempts[1..]);
      if attempts[0].Skip? {
        assert forall j :: 1 <= j < |attempts| ==> attempts[j] == attempts[1..][j - 1];
      }
    }
  }

  /** The search returns `v` exactly when some strategy hits with `v` and
      every earlier one skips. */
  lemma {:induction false} ResolveHit<T>(attempts: seq<Attempt<T>>, v: T)
    ensures Resolve(attempts) == Returned(Some(v))
        <==> exists i :: Decides(attempts, i) && attempts[i] == Hit(v)
  {
    if i :| Decides(attempts, i) && attempts[i] == Hit(v) {
      ResolveFirstDecides(attempts, i);
    }
    if Resolve(attempts) == Returned(Some(v)) {
      var i := FirstNonSkip(attempts);
      ResolveFirstDecides(attempts, i);
      assert Decides(attempts, i) && attempts[i] == Hit(v);
    }
  }

  /** The search raises `e` exactly when some strategy fails with `e` that
      is not swallowed and every earlier one skips. */
  lemma {:induction false} ResolveRaised<T>(attempts: seq<Attempt<T>>, e: Error)
    ensures Resolve(attempts) == Raised(e)
        <==> exists i :: Decides(attempts, i) && attempts[i] == Fatal(e)
  {
    if i :| Decides(attempts, i) && attempts[i] == Fatal(e) {
      ResolveFirstDecides(attempts, i);
    }
    if Resolve(attempts) == Raised(e) {
      var i := FirstNonSkip(attempts);
      ResolveFirstDecides(attempts, i);
      assert Decides(attempts, i) && attempts[i] == Fatal(e);
    }
  }

  /** The index of the first attempt that is not a skip, when one exists. */
  lemma {:induction false} FirstNonSkip<T>(attempts: seq<Attempt<T>>) returns (i: int)
    requires Resolve(attempts) != Returned(None)
    ensures Decides(attempts, i)
  {
    assert attempts != [];
    if attempts[0].Skip? {
      var k := FirstNonSkip(attempts[1..]);
      i := k + 1;
      assert forall j :: 1 <= j < i ==> attempts[j] == attempts[1..][j - 1];
    } else {
      i := 0;
    }
  }

  /** `find_element` with the strategy of `key`, as an attempt. */
  function ElementAttempt(p: Page, scope: Scope, key: Key): Attempt<Handle> {
    match p.findElement(scope, Selector(key))
      case Returned(h) => Hit(h)
      case Raised(e) => if Swallowed(e) then Skip else Fatal(e)
  }

  /** `find_elements` with the strategy of `key`, as an attempt: an empty
      list skips. */
  function ElementsAttempt(p: Page, scope: Scope, key: Key): Attempt<seq<Handle>> {
    match p.findElements(scope, Selector(key))
      case Returned(hs) => if hs == [] then Skip else Hit(hs)
      case Raised(e) => if Swallowed(e) then Skip else Fatal(e)
  }

  function ElementAttempts(p: Page, scope: Scope, keys: seq<Key>): (r: seq<Attempt<Handle>>)
    ensures |r| == |keys|
    ensures forall i :: 0 <= i < |keys| ==> r[i] == ElementAttempt(p, scope, keys[i])
  {
    seq(|keys|, i requires 0 <= i < |keys| => ElementAttempt(p, scope, keys[i]))
  }

  function ElementsAttempts(p: Page, scope: Scope, keys: seq<Key>): (r: seq<Attempt<seq<Handle>>>)
    ensures |r| == |keys|
    ensures forall i :: 0 <= i < |keys| ==> r[i] == ElementsAttempt(p, scope, keys[i])
  {
    seq(|keys|, i requires 0 <= i < |keys| => ElementsAttempt(p, scope, keys[i]))
  }

  /** `_try_find_element` as a value: the element, `None`, or the escaping error. */
  function FirstElement(p: Page, scope: Scope, keys: seq<Key>): Outcome<Option<Handle>> {
    Resolve(ElementAttempts(p, scope, keys))
  }

  /** `_try_find_elements` as a value: the first non-empty list, `[]`, or the
      escaping error. */
  function FirstElements(p: Page, scope: Scope, keys: seq<Key>): Outcome<seq<Handle>> {
    match Resolve(ElementsAttempts(p, scope, keys))
    case Returned(Some(hs)) => Returned(hs)
    case Returned(None) => Returned([])
    case Raised(e) => Raised(e)
  }

  /** Only errors the fallback does not swallow escape it. */
  lemma FirstElementEscapes(p: Page, scope: Scope, keys: seq<Key>)
    ensures FirstElement(p, scope, keys).Raised? ==> !Swallowed(FirstElement(p, scope, keys).error)
    ensures FirstElements(p, scope, keys).Raised? ==> !Swallowed(FirstElements(p, scope, keys).error)
  {
    var one := ElementAttempts(p, scope, keys);
    if Resolve(one).Raised? {
      ResolveRaised(one, Resolve(one).error);
    }
    var all := ElementsAttempts(p, scope, keys);
    if Resolve(all).Raised? {
      ResolveRaised(all, Resolve(all).error);
    }
  }

  /** A non-empty list comes from the first key whose query gave a
      non-empty list, every earlier key having failed or matched nothing;
      `[]` means every key failed or matched nothing. */
  lemma FirstElementsFromFirstHit(p: Page, scope: Scope, keys: seq<Key>)
    ensures FirstElements(p, scope, keys) == Returned([])
        <==> forall j :: 0 <= j < |keys| ==> ElementsAttempt(p, scope, keys[j]).Skip?
    ensures forall hs :: FirstElements(p, scope, keys) == Returned(hs) && hs != [] ==>
        exists i :: Decides(ElementsAttempts(p, scope, keys), i)
          && ElementsAttempt(p, scope, keys[i]) == Hit(hs)
  {
    var attempts := ElementsAttempts(p, scope, keys);
    ResolveNothing(attempts);
    if Resolve(attempts).Returned? && Resolve(attempts).value.Some? {
      var hs := Resolve(attempts).value.value;
      ResolveHit(attempts, hs);
      var i :| Decides(attempts, i) && attempts[i] == Hit(hs);
      assert hs != [];
    }
  }

  /** `_try_find_element`: try the keys in order, return the first element
      found; keys whose query raises not-found or stale are skipped; any
      other error escapes. */
  method TryFindElement(p: Page, scope: Scope, keys: seq<Key>) returns (r: Outcome<Option<Handle>>)
    ensures r == FirstElement(p, scope, keys)
  {
    ghost var attempts := ElementAttempts(p, scope, keys);
    var i := 0;
    while i < |keys|
      invariant 0 <= i <= |keys|
      invariant Resolve(attempts[i..]) == Resolve(attempts)
    {
      assert attempts[i..][1..] == attempts[i + 1..];
      var q := p.findElement(scope, Selector(keys[i]));
      match q {
        case Returned(el) =>
          return Returned(Some(el));
        case Raised(e) =>
          if !Swallowed(e) {
            return Raised(e);
          }
      }
      i := i + 1;
    }
    return Returned(None);
  }

  /** `_try_find_elements`: like TryFindElement, but an empty list moves on
      to the next key and the fallback result is `[]`. */
  method TryFindElements(p: Page, scope: Scope, keys: seq<Key>) returns (r: Outcome<seq<Handle>>)
    ensures r == FirstElements(p, scope, keys)
  {
    ghost var attempts := ElementsAttempts(p, scope, keys);
    var i := 0;
    while i < |keys|
      invariant 0 <= i <= |keys|
      invariant Resolve(attempts[i..]) == Resolve(attempts)
    {
      assert attempts[i..][1..] == attempts[i + 1..];
      var q := p.findElements(scope, Selector(keys[i]));
      match q {
        case Returned(elements) =>
          if elements != [] {
            return Returned(elements);
          }
        case Raised(e) =>
          if !Swallowed(e) {
            return Raised(e);
          }
      }
      i := i + 1;
    }
    return Returned([]);
  }

  /** One poll of `_wait_for_any` as an attempt: nothing found means poll again. */
  function PollAttempt(o: Outcome<Option<Handle>>): Attempt<Handle> {
    match o
    case Returned(Some(h)) => Hit(h)
    case Returned(None) => Skip
    case Raised(e) => Fatal(e)
  }

  function PollAttempts(polls: seq<Page>, keys: seq<Key>): (r: seq<Attempt<Handle>>)
    ensures |r| == |polls|
    ensures forall i :: 0 <= i < |polls| ==> r[i] == PollAttempt(FirstElement(polls[i], Document, keys))
  {
    seq(|polls|, i requires 0 <= i < |polls| => PollAttempt(FirstElement(polls[i], Document, keys)))
  }

  /** `_wait_for_any` as a value. `polls` holds the page as each poll saw it;
      its length is the number of polls that fit in the timeout. */
  function Await(polls: seq<Page>, keys: seq<Key>): Outcome<Option<Handle>> {
    Resolve(PollAttempts(polls, keys))
  }

  /** The wait times out (returns `None`) exactly when no poll found an
      element and none raised. */
  lemma AwaitTimesOut(polls: seq<Page>, keys: seq<Key>)
    ensures Await(polls, keys) == Returned(None)
        <==> forall i :: 0 <= i < |polls| ==> FirstElement(polls[i], Document, keys) == Returned(None)
  {
    var attempts := PollAttempts(polls, keys);
    ResolveNothing(attempts);
    if forall j :: 0 <= j < |attempts| ==> attempts[j].Skip? {
      forall i | 0 <= i < |polls|
        ensures FirstElement(polls[i], Document, keys) == Returned(None)
      {
        assert attempts[i].Skip?;
      }
    }
  }

  /** A wait that raises passes on an error the element search did not
      swallow: a missing or stale element never ends the wait. */
  lemma AwaitEscapes(polls: seq<Page>, keys: seq<Key>)
    ensures Await(polls, keys).Raised? ==> !Swallowed(Await(polls, keys).error)
  {
    var attempts := PollAttempts(polls, keys);
    if Resolve(attempts).Raised? {
      var i := FirstNonSkip(attempts);
      ResolveFirstDecides(attempts, i);
      FirstElementEscapes(polls[i], Document, keys);
    }
  }

  /** `_wait_for_any`: poll until an element is found or the polls run out;
      an error that the fallback does not swallow escapes. */
  method WaitForAny(polls: seq<Page>, keys: seq<Key>) returns (r: Outcome<Option<Handle>>)
    ensures r == Await(polls, keys)
  {
    ghost var attempts := PollAttempts(polls, keys);
    var i := 0;
    while i < |polls|
      invariant 0 <= i <= |polls|
      invariant Resolve(attempts[i..]) == Resolve(attempts)
    {
      assert attempts[i..][1..] == attempts[i + 1..];
      var el := TryFindElement(polls[i], Document, keys);
      if el.Raised? || el.value.Some? {
        return el;
      }
      i := i + 1;
    }
    return Returned(None);
  }
}
