/** The monitor loop of `main`: the set of processed chat ids, the cycle
    counter that clears it, and the classification of failures. */
module Monitor {
  import opened Wrappers
  import opened Driver
  import opened Text
  import opened Selectors
  import opened Scanner
  import opened ReplyGenerator
  import opened Processor

  /** `RESET_PROCESSED_EVERY`: cycles between two clears of the set. */
  const ResetEvery: nat := 60

  /** Longest chat id taken from the visible text of a row. */
  const ChatIdWidth: nat := 40

  /** The chat id of a row: its `aria-label`, else its `data-testid`, else
      the first line of its visible text cut to 40 characters, else (when
      reading the text raises) the object identity. An error reading either
      attribute escapes. */
  function ChatId(p: Page, chat: Handle): Outcome<string> {
    match p.attribute(chat, "aria-label")
    case Raised(e) => Raised(e)
    case Returned(aria) =>
      if Truthy(aria) then Returned(aria.value)
      else
        match p.attribute(chat, "data-testid")
        case Raised(e) => Raised(e)
        case Returned(testId) =>
          if Truthy(testId) then Returned(testId.value)
          else
            match p.text(chat)
            case Raised(_) => Returned(p.identity(chat))
            case Returned(t) => Returned(Take(Split(t)[0], ChatIdWidth))
  }

  /** The priority chain: a non-empty `aria-label` wins; otherwise a
      non-empty `data-testid`; otherwise the first line of the text cut to
      40 characters, which is a newline-free prefix of that line;
      otherwise the object identity. An error reading an attribute is the
      outcome. */
  lemma ChatIdPriority(p: Page, chat: Handle)
    ensures p.attribute(chat, "aria-label").Raised?
      ==> ChatId(p, chat) == Raised(p.attribute(chat, "aria-label").error)
    ensures p.attribute(chat, "aria-label").Returned? && Truthy(p.attribute(chat, "aria-label").value)
      ==> ChatId(p, chat) == Returned(p.attribute(chat, "aria-label").value.value)
    ensures p.attribute(chat, "aria-label").Returned? && !Truthy(p.attribute(chat, "aria-label").value)
      && p.attribute(chat, "data-testid").Raised?
      ==> ChatId(p, chat) == Raised(p.attribute(chat, "data-testid").error)
    ensures p.attribute(chat, "aria-label").Returned? && !Truthy(p.attribute(chat, "aria-label").value)
      && p.attribute(chat, "data-testid").Returned? && Truthy(p.attribute(chat, "data-testid").value)
      ==> ChatId(p, chat) == Returned(p.attribute(chat, "data-testid").value.value)
    ensures p.attribute(chat, "aria-label").Returned? && !Truthy(p.attribute(chat, "aria-label").value)
      && p.attribute(chat, "data-testid").Returned? && !Truthy(p.attribute(chat, "data-testid").value)
      && p.text(chat).Returned?
      ==> (ChatId(p, chat) == Returned(Take(FirstLine(p.text(chat).value), ChatIdWidth))
        && |ChatId(p, chat).value| <= ChatIdWidth
        && '\n' !in ChatId(p, chat).value
        && ChatId(p, chat).value <= FirstLine(p.text(chat).value))
    ensures p.attribute(chat, "aria-label").Returned? && !Truthy(p.attribute(chat, "aria-label").value)
      && p.attribute(chat, "data-testid").Returned? && !Truthy(p.attribute(chat, "data-testid").value)
      && p.text(chat).Raised?
      ==> ChatId(p, chat) == Returned(p.identity(chat))
  {
    if p.text(chat).Returned? {
      FirstLineIsFirstPiece(p.text(chat).value);
    }
  }

  function ChatIds(p: Page, chats: seq<Handle>): (r: seq<Outcome<string>>)
    ensures |r| == |chats|
    ensures forall i :: 0 <= i < |chats| ==> r[i] == ChatId(p, chats[i])
  {
    seq(|chats|, i requires 0 <= i < |chats| => ChatId(p, chats[i]))
  }

  /** The disconnection test on `str(e).lower()`. */
  function IsDisconnection(message: string): bool {
    var m := Lower(message);
    Contains(m, "disconnected") || Contains(m, "not reachable")
  }

  /** The test ignores case: any spelling of "Disconnected" counts. */
  lemma DisconnectionIgnoresCase(message: string, i: nat)
    requires i + 12 <= |message| && Lower(message[i..i + 12]) == "disconnected"
    ensures IsDisconnection(message)
  {
    var m := Lower(message);
    assert m[i..i + 12] == Lower(message[i..i + 12]);
    assert OccursAt(m, "disconnected", i);
  }

  /** The state `main` keeps across cycles. */
  datatype MonitorState = MonitorState(processed: set<string>, cycleCount: nat)

  const Initial: MonitorState := MonitorState({}, 0)

  ghost predicate ValidState(s: MonitorState) {
    s.cycleCount < ResetEvery
  }

  /** How a cycle ended: normally, by an error the loop logs and survives,
      or by a lost browser connection, which ends the loop. */
  datatype CycleOutcome = Finished | Transient(error: Error) | Disconnected

  /** How `main` treats an error escaping a cycle: a WebDriver error whose
      text mentions a disconnection ends the loop, any other error is logged
      and the loop goes on. */
  function Classify(e: Error): CycleOutcome {
    if e.IsWebDriverException() && IsDisconnection(e.msg) then Disconnected else Transient(e)
  }

  /** The chat loop of one cycle: the ids handed to `process_chat`, the
      set afterwards, and the error that escaped the loop, if any. */
  datatype ChatPass = ChatPass(handled: seq<string>, processed: set<string>, escaped: Option<Error>)

  /** Go through the chat ids: skip ids already processed, process and
      record the others; a stale row stops the loop, any other error escapes
      the cycle body. */
  function ChatLoop(processed: set<string>, ids: seq<Outcome<string>>): ChatPass
    decreases |ids|
  {
    if ids == [] then ChatPass([], processed, None)
    else
      match ids[0]
      case Returned(id) =>
        if id in processed then ChatLoop(processed, ids[1..])
        else
          var rest := ChatLoop(processed + {id}, ids[1..]);
          ChatPass([id] + rest.handled, rest.processed, rest.escaped)
      case Raised(e) =>
        if e.StaleElement? then ChatPass([], processed, None)
        else ChatPass([], processed, Some(e))
  }

  /** Ids handed over earlier put in front of the rest of a chat loop. */
  function After(handled: seq<string>, pass: ChatPass): ChatPass {
    ChatPass(handled + pass.handled, pass.processed, pass.escaped)
  }

  /** One id of the chat loop: an id already processed is skipped, a new
      one is handed over and recorded. */
  lemma ChatLoopStep(start: set<string>, processed: set<string>, ids: seq<Outcome<string>>, i: nat,
                     handled: seq<string>)
    requires i < |ids| && ids[i].Returned?
    requires ChatLoop(start, ids) == After(handled, ChatLoop(processed, ids[i..]))
    ensures ids[i].value in processed
      ==> ChatLoop(start, ids) == After(handled, ChatLoop(processed, ids[i + 1..]))
    ensures ids[i].value !in processed
      ==> ChatLoop(start, ids) == After(handled + [ids[i].value], ChatLoop(processed + {ids[i].value}, ids[i + 1..]))
  {
    assert ids[i..][1..] == ids[i + 1..];
    var rest := ChatLoop(processed + {ids[i].value}, ids[i + 1..]);
    assert handled + ([ids[i].value] + rest.handled) == (handled + [ids[i].value]) + rest.handled;
  }

  /** An error ends the chat loop: quietly for a stale row, handing the
      error back otherwise. */
  lemma ChatLoopStop(start: set<string>, processed: set<string>, ids: seq<Outcome<string>>, i: nat,
                     handled: seq<string>)
    requires i <= |ids| && (i < |ids| ==> ids[i].Raised?)
    requires ChatLoop(start, ids) == After(handled, ChatLoop(processed, ids[i..]))
    ensures ChatLoop(start, ids) == ChatPass(handled, processed,
      if i < |ids| && !ids[i].error.StaleElement? then Some(ids[i].error) else None)
  {
    assert handled + [] == handled;
  }

  ghost predicate Distinct(xs: seq<string>) {
    forall i, j :: 0 <= i < j < |xs| ==> xs[i] != xs[j]
  }

  /** The chat loop never hands over an id already processed, nor one id
      twice, and records every id it hands over. */
  lemma {:induction false} ChatLoopNeverRepeats(processed: set<string>, ids: seq<Outcome<string>>)
    ensures var pass := ChatLoop(processed, ids);
      (forall id :: id in pass.handled ==> id !in processed)
      && Distinct(pass.handled)
      && pass.processed == processed + set id | id in pass.handled
    decreases |ids|
  {
    if ids != [] && ids[0].Returned? && ids[0].value !in processed {
      var id := ids[0].value;
      ChatLoopNeverRepeats(processed + {id}, ids[1..]);
      var rest := ChatLoop(processed + {id}, ids[1..]);
      var handled := [id] + rest.handled;
      assert forall k :: 1 <= k < |handled| ==> handled[k] == rest.handled[k - 1];
      assert (set x | x in handled) == {id} + set x | x in rest.handled;
    } else if ids != [] && ids[0].Returned? {
      ChatLoopNeverRepeats(processed, ids[1..]);
    }
  }

  /** Every id read before the first error is either already processed or
      handed over; nothing after a stale row is looked at. */
  lemma {:induction false} ChatLoopCovers(processed: set<string>, ids: seq<Outcome<string>>, k: nat)
    requires k <= |ids|
    requires forall j :: 0 <= j < k ==> ids[j].Returned?
    ensures var pass := ChatLoop(processed, ids);
      forall j :: 0 <= j < k ==> ids[j].value in processed || ids[j].value in pass.handled
    decreases |ids|
  {
    if k > 0 {
      var id := ids[0].value;
      var next := if id in processed then processed else processed + {id};
      ChatLoopCovers(next, ids[1..], k - 1);
      ChatLoopNeverRepeats(next, ids[1..]);
      forall j | 1 <= j < k ensures ids[j] == ids[1..][j - 1] { }
    }
  }

  /** The first error in the ids decides how the chat loop ends: a stale
      row ends it quietly, any other error escapes. */
  lemma {:induction false} ChatLoopStopsAtError(processed: set<string>, ids: seq<Outcome<string>>, k: nat)
    requires k < |ids| && ids[k].Raised?
    requires forall j :: 0 <= j < k ==> ids[j].Returned?
    ensures ChatLoop(processed, ids).escaped
      == (if ids[k].error.StaleElement? then None else Some(ids[k].error))
    ensures ChatLoop(processed, ids).handled == ChatLoop(processed, ids[..k]).handled
    decreases |ids|
  {
    if k > 0 {
      var id := ids[0].value;
      var next := if id in processed then processed else processed + {id};
      assert ids[1..][..k - 1] == ids[..k][1..];
      ChatLoopStopsAtError(next, ids[1..], k - 1);
    }
  }

  /** The result of one cycle: ids handed over, outcome, next state. */
  datatype CycleResult = CycleResult(handled: seq<string>, outcome: CycleOutcome, next: MonitorState)

  /** One iteration of the `while True` loop of `main`. A cycle whose chat
      loop ends normally (including after a stale row) advances the counter,
      clearing the set when it reaches 60; a cycle whose body raises keeps
      the counter and is classified by the error's text. */
  function Cycle(s: MonitorState, ids: seq<Outcome<string>>): CycleResult {
    var pass := ChatLoop(s.processed, ids);
    match pass.escaped
    case None =>
      var count := s.cycleCount + 1;
      if count >= ResetEvery then CycleResult(pass.handled, Finished, MonitorState({}, 0))
      else CycleResult(pass.handled, Finished, MonitorState(pass.processed, count))
    case Some(e) => CycleResult(pass.handled, Classify(e), MonitorState(pass.processed, s.cycleCount))
  }

  /** What a cycle guarantees: ids already processed are never handed over
      again, nor twice in one cycle; the counter stays below 60; a completed
      cycle advances it by one modulo 60 and clears the set exactly when it
      wraps; a cycle that raised leaves the counter alone; in every case
      but a wrap the handed-over ids join the set. */
  lemma CycleSpec(s: MonitorState, ids: seq<Outcome<string>>)
    requires ValidState(s)
    ensures var r := Cycle(s, ids);
      ValidState(r.next)
      && (forall id :: id in r.handled ==> id !in s.processed)
      && Distinct(r.handled)
      && (r.outcome.Finished? ==> r.next.cycleCount == (s.cycleCount + 1) % ResetEvery)
      && (r.outcome.Finished? && s.cycleCount + 1 == ResetEvery ==> r.next.processed == {})
      && (!r.outcome.Finished? ==> r.next.cycleCount == s.cycleCount)
      && (r.next.cycleCount != 0 || !r.outcome.Finished?
          ==> r.next.processed == s.processed + set id | id in r.handled)
  {
    ChatLoopNeverRepeats(s.processed, ids);
  }

  /** A stale row stops the chat loop but not the cycle: the counter still
      advances. */
  lemma StaleRowStillCounts(s: MonitorState, ids: seq<Outcome<string>>, k: nat)
    requires ValidState(s)
    requires k < |ids| && ids[k].Raised? && ids[k].error.StaleElement?
    requires forall j :: 0 <= j < k ==> ids[j].Returned?
    ensures Cycle(s, ids).outcome == Finished
    ensures Cycle(s, ids).next.cycleCount == (s.cycleCount + 1) % ResetEvery
  {
    ChatLoopStopsAtError(s.processed, ids, k);
  }

  /** `n` cycles that find no unread chat. */
  function Idle(s: MonitorState, n: nat): MonitorState
    decreases n
  {
    if n == 0 then s else Idle(Cycle(s, []).next, n - 1)
  }

  /** The clear is driven by the counter alone: from any state, the cycles
      left until the counter wraps empty the set even when no chat is seen;
      from the start, that is 60 cycles. */
  lemma {:induction false} IdleCyclesClear(s: MonitorState)
    requires ValidState(s)
    ensures Idle(s, ResetEvery - s.cycleCount) == MonitorState({}, 0)
    decreases ResetEvery - s.cycleCount
  {
    var next := Cycle(s, []).next;
    if s.cycleCount + 1 < ResetEvery {
      assert next == MonitorState(s.processed, s.cycleCount + 1);
      IdleCyclesClear(next);
    }
  }

  /** The result of a run of cycles: every id handed over, the final state,
      how many clears happened, and whether a disconnection ended the run. */
  datatype RunResult = RunResult(handled: seq<string>, final: MonitorState, clears: nat, stopped: bool)

  /** The `while True` loop over the chat ids each cycle reads, leaving it
      at a disconnection. */
  function Run(s: MonitorState, cycles: seq<seq<Outcome<string>>>): RunResult
    decreases |cycles|
  {
    if cycles == [] then RunResult([], s, 0, false)
    else
      var r := Cycle(s, cycles[0]);
      var clear := if r.outcome.Finished? && r.next.cycleCount == 0 then 1 else 0;
      if r.outcome.Disconnected? then RunResult(r.handled, r.next, clear, true)
      else
        var rest := Run(r.next, cycles[1..]);
        RunResult(r.handled + rest.handled, rest.final, clear + rest.clears, rest.stopped)
  }

  /** Results of earlier cycles put in front of the result of a run. */
  function Prepend(handled: seq<string>, clears: nat, r: RunResult): RunResult {
    RunResult(handled + r.handled, r.final, clears + r.clears, r.stopped)
  }

  /** One cycle of a run: a disconnection ends the run, otherwise the rest
      of the run follows the cycle, after what earlier cycles produced. */
  lemma RunStep(start: MonitorState, s: MonitorState, cycles: seq<seq<Outcome<string>>>, i: nat,
                handled: seq<string>, clears: nat, c: CycleResult)
    requires i < |cycles| && c == Cycle(s, cycles[i])
    requires Run(start, cycles) == Prepend(handled, clears, Run(s, cycles[i..]))
    ensures var clear := if c.outcome.Finished? && c.next.cycleCount == 0 then 1 else 0;
      Run(start, cycles) == if c.outcome.Disconnected?
        then RunResult(handled + c.handled, c.next, clears + clear, true)
        else Prepend(handled + c.handled, clears + clear, Run(c.next, cycles[i + 1..]))
  {
    assert cycles[i..][1..] == cycles[i + 1..];
    var rest := Run(c.next, cycles[i + 1..]);
    assert handled + (c.handled + rest.handled) == (handled + c.handled) + rest.handled;
  }

  /** Within one window (a run with no clear) no chat id is handed to
      `process_chat` twice, nor one that was processed before the run. */
  lemma {:induction false} RunNeverRepeatsInWindow(s: MonitorState, cycles: seq<seq<Outcome<string>>>)
    requires ValidState(s)
    requires Run(s, cycles).clears == 0
    ensures var r := Run(s, cycles);
      Distinct(r.handled) && (forall id :: id in r.handled ==> id !in s.processed)
      && s.processed + (set id | id in r.handled) <= r.final.processed
    decreases |cycles|
  {
    if cycles != [] {
      var c := Cycle(s, cycles[0]);
      CycleSpec(s, cycles[0]);
      assert c.next.processed == s.processed + set id | id in c.handled;
      if !c.outcome.Disconnected? {
        RunNeverRepeatsInWindow(c.next, cycles[1..]);
        var rest := Run(c.next, cycles[1..]);
        var all := c.handled + rest.handled;
        forall i, j | 0 <= i < j < |all| ensures all[i] != all[j] {
          if j >= |c.handled| && i < |c.handled| {
            assert all[i] in c.handled;
            assert all[j] == rest.handled[j - |c.handled|];
          } else if i >= |c.handled| {
            assert all[i] == rest.handled[i - |c.handled|];
            assert all[j] == rest.handled[j - |c.handled|];
          }
        }
      }
    }
  }

  /** The chat ids each cycle reads, one page per cycle. */
  function CycleIds(pages: seq<Page>): (r: seq<seq<Outcome<string>>>)
    requires forall i :: 0 <= i < |pages| ==> Closed(pages[i].dom)
    ensures |r| == |pages|
    ensures forall i :: 0 <= i < |pages| ==> r[i] == ChatIds(pages[i], NewMessages(pages[i]))
  {
    seq(|pages|, i requires 0 <= i < |pages| && Closed(pages[i].dom) => ChatIds(pages[i], NewMessages(pages[i])))
  }

  /** Cycles that see no unread chat hand nothing over and never end the
      run. */
  lemma {:induction false} IdleRunNeverStops(s: MonitorState, cycles: seq<seq<Outcome<string>>>)
    requires forall i :: 0 <= i < |cycles| ==> cycles[i] == []
    ensures Run(s, cycles).handled == [] && !Run(s, cycles).stopped
    decreases |cycles|
  {
    if cycles != [] {
      assert cycles[0] == [];
      assert Cycle(s, []).outcome == Finished;
      IdleRunNeverStops(Cycle(s, []).next, cycles[1..]);
    }
  }

  /** The disconnection test is reached only through the chat loop: when
      the badge query of every cycle raises, as it does once the browser is
      gone, the scan swallows the error, each cycle sees no chat, and the
      loop of `main` never stops. */
  lemma LostBrowserRunNeverStops(s: MonitorState, pages: seq<Page>)
    requires forall i :: 0 <= i < |pages| ==> Closed(pages[i].dom)
    requires forall i :: 0 <= i < |pages| ==> FirstElements(pages[i], Document, UnreadBadgeKeys).Raised?
    ensures Run(s, CycleIds(pages)).handled == [] && !Run(s, CycleIds(pages)).stopped
  {
    var cycles := CycleIds(pages);
    forall i | 0 <= i < |cycles| ensures cycles[i] == [] {
      assert NewMessages(pages[i]) == [];
    }
    IdleRunNeverStops(s, cycles);
  }

  /** The monitor of `main` as an object: the set of processed chat ids
      and the cycle counter, updated in place by each cycle. */
  class ChatMonitor {
    var processed: set<string>
    var cycleCount: nat

    ghost predicate Valid()
      reads this
    {
      cycleCount < ResetEvery
    }

    function State(): MonitorState
      reads this
    {
      MonitorState(processed, cycleCount)
    }

    constructor ()
      ensures Valid() && State() == Initial
    {
      processed := {};
      cycleCount := 0;
    }

    /** `process_chat` on the chat `view` shows, then record `chatId` as
        processed. `process_chat` only logs how processing ended and hands
        nothing back, so that outcome goes no further. */
    method ProcessAndRecord(chatId: string, view: ChatView, cli: string -> CliResult)
      modifies this`processed
      ensures processed == old(processed) + {chatId}
    {
      var _ := ProcessChat(view, cli);
      processed := processed + {chatId};
    }

    /** The chat loop of one cycle over the rows `chats`: derive each
        row's id, process the rows whose id is new (recording the id whatever
        processing did), stop at a stale row, and hand back any other error.
        `views` gives what processing each chat sees and `cli` is the reply
        generator. */
    method HandleChats(p: Page, chats: seq<Handle>, views: Handle -> ChatView, cli: string -> CliResult)
      returns (handled: seq<string>, escaped: Option<Error>)
      modifies this`processed
      ensures ChatPass(handled, processed, escaped) == ChatLoop(old(processed), ChatIds(p, chats))
    {
      ghost var ids := ChatIds(p, chats);
      ghost var start := processed;
      handled, escaped := [], None;
      var i := 0;
      assert ids[i..] == ids;
      while i < |chats|
        invariant 0 <= i <= |chats|
        invariant ChatLoop(start, ids) == After(handled, ChatLoop(processed, ids[i..]))
      {
        var id := ChatId(p, chats[i]);
        if id.Raised? {
          ChatLoopStop(start, processed, ids, i, handled);
          if id.error.StaleElement? {
            return;
          }
          escaped := Some(id.error);
          return;
        }
        var chatId := id.value;
        ChatLoopStep(start, processed, ids, i, handled);
        if chatId !in processed {
          ProcessAndRecord(chatId, views(chats[i]), cli);
          handled := handled + [chatId];
        }
        i := i + 1;
      }
      ChatLoopStop(start, processed, ids, i, handled);
    }

    /** One cycle: scan the page for unread chats, run the chat loop over
        them, then advance the counter, clearing the set every 60 cycles; an
        error escaping the chat loop ends the cycle without a count. */
    method RunCycle(p: Page, views: Handle -> ChatView, cli: string -> CliResult)
      returns (handled: seq<string>, outcome: CycleOutcome)
      requires Valid() && Closed(p.dom)
      modifies this
      ensures Valid()
      ensures CycleResult(handled, outcome, State()) == Cycle(old(State()), ChatIds(p, NewMessages(p)))
    {
      var chats := FindNewMessages(p);
      var escaped;
      handled, escaped := HandleChats(p, chats, views, cli);
      if escaped.Some? {
        outcome := Classify(escaped.value);
        return;
      }
      cycleCount := cycleCount + 1;
      if cycleCount >= ResetEvery {
        processed := {};
        cycleCount := 0;
      }
      outcome := Finished;
    }

    /** The `while True` loop of `main`: one cycle per page in `pages`,
        leaving the loop when a cycle reports a lost connection. */
    method Watch(pages: seq<Page>, views: Handle -> ChatView, cli: string -> CliResult)
      returns (handled: seq<string>, ghost clears: nat, stopped: bool)
      requires Valid() && forall i :: 0 <= i < |pages| ==> Closed(pages[i].dom)
      modifies this
      ensures Valid()
      ensures RunResult(handled, State(), clears, stopped) == Run(old(State()), CycleIds(pages))
    {
      ghost var cycles := CycleIds(pages);
      ghost var start := State();
      handled, clears, stopped := [], 0, false;
      var i := 0;
      assert cycles[i..] == cycles;
      while i < |pages|
        invariant 0 <= i <= |pages| && Valid()
        invariant Run(start, cycles) == Prepend(handled, clears, Run(State(), cycles[i..]))
      {
        ghost var c := Cycle(State(), cycles[i]);
        RunStep(start, State(), cycles, i, handled, clears, c);
        var cycleHandled, outcome := RunCycle(pages[i], views, cli);
        assert c == CycleResult(cycleHandled, outcome, State());
        ghost var clear: nat := if outcome.Finished? && cycleCount == 0 then 1 else 0;
        handled, clears := handled + cycleHandled, clears + clear;
        if outcome.Disconnected? {
          stopped := true;
          return;
        }
        i := i + 1;
      }
      assert cycles[i..] == [];
    }
  }

  /** How `main` starts: the bounded wait for the side panel either finds
      it, times out (exit status 1), or raises, which `main` logs as fatal
      before closing the browser (exit status 0). */
  datatype Startup = SessionReady | Exit(status: int) | Crashed(error: Error)

  function WaitForLogin(polls: seq<Page>): (r: Startup)
    ensures r == Exit(1)
      <==> forall i :: 0 <= i < |polls| ==> FirstElement(polls[i], Document, SidePanelKeys) == Returned(None)
    ensures r == SessionReady
      <==> Await(polls, SidePanelKeys).Returned? && Await(polls, SidePanelKeys).value.Some?
    ensures r.Crashed? <==> Await(polls, SidePanelKeys).Raised?
    ensures r.Crashed? ==> r.error == Await(polls, SidePanelKeys).error && !Swallowed(r.error)
  {
    AwaitTimesOut(polls, SidePanelKeys);
    AwaitEscapes(polls, SidePanelKeys);
    match Await(polls, SidePanelKeys)
    case Returned(Some(_)) => SessionReady
    case Returned(None) => Exit(1)
    case Raised(e) => Crashed(e)
  }
}
