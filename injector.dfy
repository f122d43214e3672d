/** The reply injector: type the reply into the compose box line by line,
    with SHIFT+ENTER between lines and one ENTER to send. */
module Injector {
  import opened Driver
  import opened Text
  import opened Selectors

  /** What `send_keys` receives: a line of text, SHIFT+ENTER, or ENTER. */
  datatype KeyEvent = Type(text: string) | ShiftEnter | Enter

  /** The events for line `i`: the line, then SHIFT+ENTER unless it is the last. */
  function LineEvents(lines: seq<string>, i: nat): seq<KeyEvent>
    requires i < |lines|
  {
    [Type(lines[i])] + (if i < |lines| - 1 then [ShiftEnter] else [])
  }

  /** The events for the first `n` lines. */
  function LinesKeys(lines: seq<string>, n: nat): seq<KeyEvent>
    requires n <= |lines|
  {
    if n == 0 then [] else LinesKeys(lines, n - 1) + LineEvents(lines, n - 1)
  }

  /** Every event `send_reply` sends for `text`, in order. */
  function ReplyKeys(text: string): seq<KeyEvent> {
    var lines := Split(text);
    LinesKeys(lines, |lines|) + [Enter]
  }

  /** The typed texts of the events, in order. */
  function Typed(keys: seq<KeyEvent>): seq<string> {
    if keys == [] then []
    else (if keys[0].Type? then [keys[0].text] else []) + Typed(keys[1..])
  }

  /** How many times `e` occurs in `keys`. */
  function Occurrences(keys: seq<KeyEvent>, e: KeyEvent): nat {
    if keys == [] then 0
    else (if keys[0] == e then 1 else 0) + Occurrences(keys[1..], e)
  }

  lemma {:induction false} TypedConcat(a: seq<KeyEvent>, b: seq<KeyEvent>)
    ensures Typed(a + b) == Typed(a) + Typed(b)
  {
    if a == [] {
      assert a + b == b;
    } else {
      assert (a + b)[0] == a[0] && (a + b)[1..] == a[1..] + b;
      TypedConcat(a[1..], b);
    }
  }

  lemma {:induction false} OccurrencesConcat(a: seq<KeyEvent>, b: seq<KeyEvent>, e: KeyEvent)
    ensures Occurrences(a + b, e) == Occurrences(a, e) + Occurrences(b, e)
  {
    if a == [] {
      assert a + b == b;
    } else {
      assert (a + b)[0] == a[0] && (a + b)[1..] == a[1..] + b;
      OccurrencesConcat(a[1..], b, e);
    }
  }

  /** Line `i` types its text, then one SHIFT+ENTER unless it is the last. */
  lemma LineEventsCounts(lines: seq<string>, i: nat)
    requires i < |lines|
    ensures Typed(LineEvents(lines, i)) == [lines[i]]
    ensures Occurrences(LineEvents(lines, i), ShiftEnter) == (if i < |lines| - 1 then 1 else 0)
    ensures Occurrences(LineEvents(lines, i), Enter) == 0
  {
    var ev := LineEvents(lines, i);
    if i < |lines| - 1 {
      assert ev == [Type(lines[i])] + [ShiftEnter];
      TypedConcat([Type(lines[i])], [ShiftEnter]);
      OccurrencesConcat([Type(lines[i])], [ShiftEnter], ShiftEnter);
      OccurrencesConcat([Type(lines[i])], [ShiftEnter], Enter);
    } else {
      assert ev == [Type(lines[i])];
    }
  }

  /** The first `n` lines give their texts, `n` or `n - 1` SHIFT+ENTERs
      (none after the last line) and no ENTER. */
  lemma {:induction false} LinesKeysCounts(lines: seq<string>, n: nat)
    requires n <= |lines|
    ensures Typed(LinesKeys(lines, n)) == lines[..n]
    ensures Occurrences(LinesKeys(lines, n), ShiftEnter) == (if n == |lines| && n > 0 then n - 1 else n)
    ensures Occurrences(LinesKeys(lines, n), Enter) == 0
  {
    if n > 0 {
      LinesKeysCounts(lines, n - 1);
      var prev := LinesKeys(lines, n - 1);
      var ev := LineEvents(lines, n - 1);
      LineEventsCounts(lines, n - 1);
      TypedConcat(prev, ev);
      OccurrencesConcat(prev, ev, ShiftEnter);
      OccurrencesConcat(prev, ev, Enter);
      assert lines[..n] == lines[..n - 1] + [lines[n - 1]];
    }
  }

  /** Joining the typed chunks with newlines reproduces the reply;
      SHIFT+ENTER is sent once per newline of the reply; exactly one ENTER
      is sent, as the final event. */
  lemma ReplyKeysSpec(text: string)
    ensures Typed(ReplyKeys(text)) == Split(text)
    ensures Join(Typed(ReplyKeys(text))) == text
    ensures Occurrences(ReplyKeys(text), ShiftEnter) == Count(text, '\n')
    ensures Occurrences(ReplyKeys(text), Enter) == 1
    ensures ReplyKeys(text)[|ReplyKeys(text)| - 1] == Enter
  {
    var lines := Split(text);
    var body := LinesKeys(lines, |lines|);
    LinesKeysCounts(lines, |lines|);
    TypedConcat(body, [Enter]);
    OccurrencesConcat(body, [Enter], ShiftEnter);
    OccurrencesConcat(body, [Enter], Enter);
    assert lines[..|lines|] == lines;
    assert Typed([Enter]) == [];
    assert Typed(ReplyKeys(text)) == lines;
    JoinSplit(text);
    SplitCount(text);
  }

  /** Events alternate: line `k` is typed at position `2k`, every
      SHIFT+ENTER sits between two typed lines. */
  lemma {:induction false} LinesKeysShape(lines: seq<string>, n: nat)
    requires n <= |lines|
    ensures |LinesKeys(lines, n)| == (if n == |lines| && n > 0 then 2 * n - 1 else 2 * n)
    ensures forall k :: 0 <= k < n ==> LinesKeys(lines, n)[2 * k] == Type(lines[k])
    ensures forall k :: 0 <= k < n && k < |lines| - 1 ==> LinesKeys(lines, n)[2 * k + 1] == ShiftEnter
  {
    if n > 0 {
      LinesKeysShape(lines, n - 1);
      var prev := LinesKeys(lines, n - 1);
      assert |prev| == 2 * (n - 1);
      var keys := LinesKeys(lines, n);
      assert keys == prev + LineEvents(lines, n - 1);
      forall k | 0 <= k < n ensures keys[2 * k] == Type(lines[k]) {
        if k < n - 1 {
          assert keys[2 * k] == prev[2 * k];
        }
      }
      forall k | 0 <= k < n && k < |lines| - 1 ensures keys[2 * k + 1] == ShiftEnter {
        if k < n - 1 {
          assert keys[2 * k + 1] == prev[2 * k + 1];
        }
      }
    }
  }

  /** `send_reply`: wait for the compose box; when it never appears (or the
      wait raises) report failure having typed nothing, otherwise type the
      reply line by line and press ENTER. */
  method SendReply(inputPolls: seq<Page>, replyText: string) returns (sent: bool, keys: seq<KeyEvent>)
    ensures sent <==> (Await(inputPolls, MessageInputKeys).Returned?
      && Await(inputPolls, MessageInputKeys).value.Some?)
    ensures sent ==> keys == ReplyKeys(replyText)
    ensures !sent ==> keys == []
  {
    var inputBox := WaitForAny(inputPolls, MessageInputKeys);
    if inputBox.Raised? || inputBox.value.None? {
      return false, [];
    }
    var lines := Split(replyText);
    keys := [];
    var i := 0;
    while i < |lines|
      invariant 0 <= i <= |lines|
      invariant keys == LinesKeys(lines, i)
    {
      keys := keys + [Type(lines[i])];
      if i < |lines| - 1 {
        keys := keys + [ShiftEnter];
      }
      i := i + 1;
    }
    keys := keys + [Enter];
    sent := true;
  }
}
