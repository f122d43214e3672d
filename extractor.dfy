/** The message extractor: the last inbound message and the contact name
    of the open conversation. */
module Extractor {
  import opened Wrappers
  import opened Driver
  import opened Text
  import opened Selectors

  /** The name used when the header yields none. */
  const DefaultContactName: string := "Contacto"

  /** `read_last_message`. `panelPolls` is the page as the bounded wait for
      the conversation panel saw it, `p` the page after the settle pause.
      The text of the last inbound message, stripped; nothing when the panel
      never appears, when no message matches, when the text is blank (media,
      audio, stickers) or when anything raises. */
  function LastMessage(panelPolls: seq<Page>, p: Page): (r: Option<string>)
    ensures r.Some? ==> r.value != [] && NoOuterSpace(r.value)
    ensures r.Some? ==> (Await(panelPolls, MessagePanelKeys).Returned?
      && Await(panelPolls, MessagePanelKeys).value.Some?)
    ensures r.Some? ==> var msgs := FirstElements(p, Document, IncomingTextKeys);
      msgs.Returned? && msgs.value != []
      && var last := p.text(msgs.value[|msgs.value| - 1]);
      last.Returned? && r.value == Strip(last.value)
    ensures Await(panelPolls, MessagePanelKeys).Returned? && Await(panelPolls, MessagePanelKeys).value.Some?
      ==> var msgs := FirstElements(p, Document, IncomingTextKeys);
        msgs.Returned? && msgs.value != [] ==>
        var last := p.text(msgs.value[|msgs.value| - 1]);
        last.Returned? && Strip(last.value) != [] ==> r == Some(Strip(last.value))
  {
    match Await(panelPolls, MessagePanelKeys)
    case Raised(_) => None
    case Returned(None) => None
    case Returned(Some(_)) =>
      match FirstElements(p, Document, IncomingTextKeys)
      case Raised(_) => None
      case Returned(messages) =>
        if messages == [] then None
        else
          match p.text(messages[|messages| - 1])
          case Raised(_) => None
          case Returned(t) =>
            var text := Strip(t);
            if text == [] then None else Some(text)
  }

  /** A last message whose text is only whitespace reads as no message. */
  lemma BlankMessageIsNoMessage(panelPolls: seq<Page>, p: Page)
    requires FirstElements(p, Document, IncomingTextKeys).Returned?
    requires var msgs := FirstElements(p, Document, IncomingTextKeys).value;
      msgs != [] && p.text(msgs[|msgs| - 1]).Returned?
      && AllSpace(p.text(msgs[|msgs| - 1]).value)
    ensures LastMessage(panelPolls, p) == None
  {
  }

  /** `get_contact_name`: the stripped header text, else its `title`
      attribute, else "Contacto". A stale header gives the default; an
      error the selector fallback does not swallow escapes to the caller. */
  function ContactName(p: Page): (r: Outcome<string>)
    ensures r.Returned? ==> r.value != []
    ensures r.Raised? ==> !r.error.StaleElement?
    ensures FirstElement(p, Document, ContactHeaderKeys) == Returned(None)
      ==> r == Returned(DefaultContactName)
    ensures FirstElement(p, Document, ContactHeaderKeys).Raised?
      ==> r == Raised(FirstElement(p, Document, ContactHeaderKeys).error)
    ensures var header := FirstElement(p, Document, ContactHeaderKeys);
      header.Returned? && header.value.Some? && p.text(header.value.value).Returned?
      ==> var name := Strip(p.text(header.value.value).value);
        (name != [] ==> r == Returned(name))
        && (name == [] ==> match p.attribute(header.value.value, "title")
            case Returned(title) =>
              r == Returned(if Truthy(title) then title.value else DefaultContactName)
            case Raised(e) =>
              r == if e.StaleElement? then Returned(DefaultContactName) else Raised(e))
    ensures var header := FirstElement(p, Document, ContactHeaderKeys);
      header.Returned? && header.value.Some? && p.text(header.value.value).Raised?
      ==> var e := p.text(header.value.value).error;
        r == if e.StaleElement? then Returned(DefaultContactName) else Raised(e)
  {
    match FirstElement(p, Document, ContactHeaderKeys)
    case Raised(e) =>
      FirstElementEscapes(p, Document, ContactHeaderKeys);
      Raised(e)
    case Returned(None) => Returned(DefaultContactName)
    case Returned(Some(h)) =>
      match p.text(h)
      case Raised(e) => if e.StaleElement? then Returned(DefaultContactName) else Raised(e)
      case Returned(t) =>
        var stripped := Strip(t);
        if stripped != [] then Returned(stripped)
        else
          match p.attribute(h, "title")
          case Raised(e) => if e.StaleElement? then Returned(DefaultContactName) else Raised(e)
          case Returned(title) =>
            if Truthy(title) then Returned(title.value)
            else Returned(DefaultContactName)
  }
}
