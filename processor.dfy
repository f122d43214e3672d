/** The conversation processor: one opened chat from contact name to sent
    reply, with every failure confined to this chat. */
module Processor {
  import opened Wrappers
  import opened Driver
  import opened Extractor
  import opened ReplyGenerator
  import opened Injector
  import opened Selectors

  /** How processing one chat ended. `Aborted` is an exception that
      `process_chat` caught and logged. */
  datatype ChatOutcome =
    | Aborted(error: Error)
    | NoMessage
    | NoReply
    | Replied(reply: string, sent: bool, keys: seq<KeyEvent>)

  /** What processing one chat sees: the page of the open chat and the
      pages seen by the bounded waits for the conversation panel and for
      the compose box. */
  datatype ChatView = ChatView(page: Page, panelPolls: seq<Page>, inputPolls: seq<Page>)

  /** What `process_chat` does with an opened chat: read the contact name
      (a failure there aborts), read the last message, ask for a reply, and
      type it when the compose box appears. */
  function Processed(view: ChatView, cli: string -> CliResult): ChatOutcome {
    match ContactName(view.page)
    case Raised(e) => Aborted(e)
    case Returned(name) =>
      match LastMessage(view.panelPolls, view.page)
      case None => NoMessage
      case Some(message) =>
        match GenerateReply(name, message, cli)
        case None => NoReply
        case Some(reply) =>
          var box := Await(view.inputPolls, MessageInputKeys);
          if box.Returned? && box.value.Some? then Replied(reply, true, ReplyKeys(reply))
          else Replied(reply, false, [])
  }

  /** Processing aborts exactly when reading the contact name raises. */
  lemma ProcessedAborts(view: ChatView, cli: string -> CliResult)
    ensures Processed(view, cli).Aborted? <==> ContactName(view.page).Raised?
  {
    match ContactName(view.page)
    case Raised(e) =>
    case Returned(name) =>
      match LastMessage(view.panelPolls, view.page)
      case None =>
      case Some(message) =>
        match GenerateReply(name, message, cli)
        case None =>
        case Some(reply) =>
  }

  /** Processing finds no message exactly when the name is read and no
      message is. */
  lemma ProcessedFindsNoMessage(view: ChatView, cli: string -> CliResult)
    ensures Processed(view, cli).NoMessage?
      <==> ContactName(view.page).Returned? && LastMessage(view.panelPolls, view.page).None?
  {
    match ContactName(view.page)
    case Raised(e) =>
    case Returned(name) =>
      match LastMessage(view.panelPolls, view.page)
      case None =>
      case Some(message) =>
        match GenerateReply(name, message, cli)
        case None =>
        case Some(reply) =>
  }

  /** Processing ends without a reply exactly when the name and a message
      are read and the generator gives nothing for them. */
  lemma ProcessedNoReply(view: ChatView, cli: string -> CliResult)
    ensures Processed(view, cli).NoReply?
      <==> (ContactName(view.page).Returned? && LastMessage(view.panelPolls, view.page).Some?
        && GenerateReply(ContactName(view.page).value, LastMessage(view.panelPolls, view.page).value, cli).None?)
  {
    match ContactName(view.page)
    case Raised(e) =>
    case Returned(name) =>
      match LastMessage(view.panelPolls, view.page)
      case None =>
      case Some(message) =>
        match GenerateReply(name, message, cli)
        case None =>
        case Some(reply) =>
  }

  /** A reply is generated from the contact name and a non-empty last
      message; it is typed as its key sequence, ending with ENTER, exactly
      when the compose box appears, and nothing is typed otherwise. */
  lemma ProcessedReplies(view: ChatView, cli: string -> CliResult)
    requires Processed(view, cli).Replied?
    ensures var name := ContactName(view.page);
      var message := LastMessage(view.panelPolls, view.page);
      name.Returned? && message.Some? && message.value != []
      && GenerateReply(name.value, message.value, cli) == Some(Processed(view, cli).reply)
    ensures Processed(view, cli).reply != []
    ensures Processed(view, cli).sent
      <==> (Await(view.inputPolls, MessageInputKeys).Returned?
            && Await(view.inputPolls, MessageInputKeys).value.Some?)
    ensures Processed(view, cli).sent ==> Processed(view, cli).keys == ReplyKeys(Processed(view, cli).reply)
    ensures !Processed(view, cli).sent ==> Processed(view, cli).keys == []
  {
    var name := ContactName(view.page);
    var message := LastMessage(view.panelPolls, view.page);
    assert name.Returned? && message.Some?;
    var reply := GenerateReply(name.value, message.value, cli);
    assert reply.Some?;
    var box := Await(view.inputPolls, MessageInputKeys);
    assert Processed(view, cli) == if box.Returned? && box.value.Some?
      then Replied(reply.value, true, ReplyKeys(reply.value)) else Replied(reply.value, false, []);
  }

  /** `process_chat` after the chat has been opened, with `view` what the
      chat shows and `cli` the external generator. It never raises: every
      failure is an outcome. */
  method ProcessChat(view: ChatView, cli: string -> CliResult) returns (o: ChatOutcome)
    ensures o == Processed(view, cli)
  {
    var name := ContactName(view.page);
    if name.Raised? {
      return Aborted(name.error);
    }
    var message := LastMessage(view.panelPolls, view.page);
    if message.None? {
      return NoMessage;
    }
    var reply := GenerateReply(name.value, message.value, cli);
    if reply.None? {
      return NoReply;
    }
    var sent, keys := SendReply(view.inputPolls, reply.value);
    return Replied(reply.value, sent, keys);
  }
}
