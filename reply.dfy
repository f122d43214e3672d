/** The pure side of `generate_reply`: sanitising the inputs, building the
    prompt and the shell command, and cleaning the CLI's output. The CLI
    itself is an oracle from command line to process result. */
module ReplyGenerator {
  import opened Wrappers
  import opened Text

  /** Characters the sanitiser replaces with a space. */
  predicate Unsafe(c: char) {
    c == '"' || c == '\'' || c == '\n' || c == '\r' || c == '\\' || c == '`' || c == '$' || c == '!'
  }

  /** `s` holds none of the unsafe characters. */
  ghost predicate Safe(s: string) {
    forall k :: 0 <= k < |s| ==> !Unsafe(s[k])
  }

  lemma SafeConcat(a: string, b: string)
    requires Safe(a) && Safe(b)
    ensures Safe(a + b)
  {
  }

  /** The substitution `re.sub(r'["\'\n\r\\`$!]', " ", s)`: same length,
      every unsafe character becomes a space, every other one stays. */
  function Blank(s: string): (r: string)
    ensures |r| == |s|
    ensures forall k :: 0 <= k < |s| ==> r[k] == s[k] || r[k] == ' '
    ensures forall k :: 0 <= k < |s| && !Unsafe(s[k]) ==> r[k] == s[k]
    ensures Safe(r)
  {
    seq(|s|, k requires 0 <= k < |s| => if Unsafe(s[k]) then ' ' else s[k])
  }

  /** A string that is a sub-multiset of a safe string is safe. */
  lemma SafeSubMultiset(r: string, s: string)
    requires multiset(r) <= multiset(s) && Safe(s)
    ensures Safe(r)
  {
    forall k | 0 <= k < |r| ensures !Unsafe(r[k]) {
      assert r[k] in multiset(r);
      assert r[k] in s;
    }
  }

  /** The sanitiser: blank out the unsafe characters, then strip. */
  function Sanitize(s: string): (r: string)
    ensures StrippedFrom(r, Blank(s))
    ensures r == [] <==> AllSpace(Blank(s))
    ensures Safe(r) && NoOuterSpace(r)
    ensures |r| <= |s|
  {
    var b := Blank(s);
    var r := Strip(b);
    SafeSubMultiset(r, b);
    assert |r| == |multiset(r)| <= |multiset(b)| == |b|;
    r
  }

  /** Safe text without surrounding whitespace passes the sanitiser
      unchanged; in particular sanitising twice is sanitising once. */
  lemma SanitizeFixedPoint(s: string)
    requires Safe(s) && NoOuterSpace(s)
    ensures Sanitize(s) == s
  {
    assert Blank(s) == s;
  }

  lemma SanitizeIdempotent(s: string)
    ensures Sanitize(Sanitize(s)) == Sanitize(s)
  {
    SanitizeFixedPoint(Sanitize(s));
  }

  /** The sanitiser keeps `%`, so a `%NAME%` reference in a message
      reaches the command line as written. */
  lemma SanitizeKeepsPercent()
    ensures !Unsafe('%')
    ensures Sanitize("%PATH%") == "%PATH%"
  {
    // `%` (code point 37) lies in none of the whitespace ranges.
    assert !InRanges('%' as int, SpaceRanges[10..]);
    assert !InRanges('%' as int, SpaceRanges[9..]);
    assert !InRanges('%' as int, SpaceRanges[8..]);
    assert !InRanges('%' as int, SpaceRanges[7..]);
    assert !InRanges('%' as int, SpaceRanges[6..]);
    assert !InRanges('%' as int, SpaceRanges[5..]);
    assert !InRanges('%' as int, SpaceRanges[4..]);
    assert !InRanges('%' as int, SpaceRanges[3..]);
    assert !InRanges('%' as int, SpaceRanges[2..]);
    assert !InRanges('%' as int, SpaceRanges[1..]);
    assert !InRanges('%' as int, SpaceRanges[0..]);
    assert SpaceRanges[0..] == SpaceRanges;
    SanitizeFixedPoint("%PATH%");
  }

  /** The fixed part of the prompt after the message, as the phrases it
      is made of. */
  const PromptTailPieces: seq<string> := [
    ". Estoy ocupado programando. ", "Genera una respuesta corta, ", "amable y profesional ",
    "diciendo que respondere ", "en breve. Solo devuelve ", "el texto de la respuesta, ",
    "sin comillas, sin ", "explicaciones adicionales, ", "sin formato markdown."]

  function Concat(pieces: seq<string>): string {
    if pieces == [] then [] else pieces[0] + Concat(pieces[1..])
  }

  const PromptTail: string := Concat(PromptTailPieces)

  lemma {:induction false} SafeConcatAll(pieces: seq<string>)
    requires forall i :: 0 <= i < |pieces| ==> Safe(pieces[i])
    ensures Safe(Concat(pieces))
  {
    if pieces != [] {
      SafeConcatAll(pieces[1..]);
      SafeConcat(pieces[0], Concat(pieces[1..]));
    }
  }

  /** Each phrase of the tail holds no unsafe character. */
  lemma PromptTailPieceSafe0() ensures Safe(PromptTailPieces[0]) { assert Safe(". Estoy ocupado programando. "); }
  lemma PromptTailPieceSafe1() ensures Safe(PromptTailPieces[1]) { assert Safe("Genera una respuesta corta, "); }
  lemma PromptTailPieceSafe2() ensures Safe(PromptTailPieces[2]) { assert Safe("amable y profesional "); }
  lemma PromptTailPieceSafe3() ensures Safe(PromptTailPieces[3]) { assert Safe("diciendo que respondere "); }
  lemma PromptTailPieceSafe4() ensures Safe(PromptTailPieces[4]) { assert Safe("en breve. Solo devuelve "); }
  lemma PromptTailPieceSafe5() ensures Safe(PromptTailPieces[5]) { assert Safe("el texto de la respuesta, "); }
  lemma PromptTailPieceSafe6() ensures Safe(PromptTailPieces[6]) { assert Safe("sin comillas, sin "); }
  lemma PromptTailPieceSafe7() ensures Safe(PromptTailPieces[7]) { assert Safe("explicaciones adicionales, "); }
  lemma PromptTailPieceSafe8() ensures Safe(PromptTailPieces[8]) { assert Safe("sin formato markdown."); }

  lemma PromptTailSafe()
    ensures Safe(PromptTail)
  {
    PromptTailPieceSafe0();
    PromptTailPieceSafe1();
    PromptTailPieceSafe2();
    PromptTailPieceSafe3();
    PromptTailPieceSafe4();
    PromptTailPieceSafe5();
    PromptTailPieceSafe6();
    PromptTailPieceSafe7();
    PromptTailPieceSafe8();
    SafeConcatAll(PromptTailPieces);
  }

  /** The fixed words before and between the name and the message. */
  lemma PromptHeadSafe()
    ensures Safe("El usuario ") && Safe(" me escribio: ")
  {
  }

  /** The prompt built from the sanitised name and message. */
  function Prompt(contactName: string, message: string): (r: string)
    ensures Safe(r)
  {
    var name := Sanitize(contactName);
    var text := Sanitize(message);
    PromptHeadSafe();
    PromptTailSafe();
    SafeConcat("El usuario ", name);
    SafeConcat("El usuario " + name, " me escribio: ");
    SafeConcat("El usuario " + name + " me escribio: ", text);
    SafeConcat("El usuario " + name + " me escribio: " + text, PromptTail);
    "El usuario " + name + " me escribio: " + text + PromptTail
  }

  /** The program and its prompt flag. */
  const CommandName: string := "gemini -p "

  /** The command line up to and including the opening quote. */
  const CommandHead: string := CommandName + "\""

  /** The shell command `gemini -p "<prompt>"`. */
  function Command(contactName: string, message: string): string {
    CommandHead + Prompt(contactName, message) + "\""
  }

  /** The only double quote before the prompt is the opening one. */
  lemma CommandHeadQuotes()
    ensures Count(CommandHead, '"') == 1
  {
    assert '"' !in CommandName;
    CountConcat(CommandName, "\"", '"');
  }

  /** The command holds exactly two double quotes, the ones around the
      prompt, and nothing between them that a POSIX shell would expand
      inside double quotes or that would end the quoted argument. */
  lemma CommandQuoting(contactName: string, message: string)
    ensures Count(Command(contactName, message), '"') == 2
    ensures var c := Command(contactName, message);
      c[..|CommandHead|] == CommandHead && c[|c| - 1] == '"' && Safe(c[|CommandHead|..|c| - 1])
  {
    var p := Prompt(contactName, message);
    QuotedOnce(p);
    Enclosed(CommandHead, p);
  }

  /** Where the head, the quoted text and the closing quote lie. */
  lemma Enclosed(head: string, p: string)
    ensures var c := head + p + "\"";
      c[..|head|] == head && c[|c| - 1] == '"' && c[|head|..|c| - 1] == p
  {
    var c := head + p + "\"";
    assert c[|head|..|c| - 1] == p;
  }

  lemma QuotedOnce(p: string)
    requires Safe(p)
    ensures Count(CommandHead + p + "\"", '"') == 2
  {
    assert '"' !in p;
    CommandHeadQuotes();
    CountConcat(CommandHead + p, "\"", '"');
    CountConcat(CommandHead, p, '"');
  }

  // ── ANSI control sequences ──────────────────────────────────────────

  const Esc: char := '\U{1B}'

  /** `[0-9;]`: a parameter character of a control sequence. */
  predicate IsParam(c: char) {
    '0' <= c <= '9' || c == ';'
  }

  /** `[a-zA-Z]`: the final character of a control sequence. */
  predicate IsFinal(c: char) {
    'a' <= c <= 'z' || 'A' <= c <= 'Z'
  }

  /** Length of the run of parameter characters at the start of `s`. */
  function ParamRun(s: string): (n: nat)
    ensures n <= |s|
    ensures forall k :: 0 <= k < n ==> IsParam(s[k])
    ensures n < |s| ==> !IsParam(s[n])
  {
    if s != [] && IsParam(s[0]) then 1 + ParamRun(s[1..]) else 0
  }

  /** Length of the match of `\x1b\[[0-9;]*[a-zA-Z]` at the start of `s`,
      if there is one. Parameters and finals are disjoint, so the greedy
      parameter run is the only candidate. */
  function SequenceAt(s: string): (r: Option<nat>)
    ensures r.Some? ==>
      && 3 <= r.value <= |s| && s[0] == Esc && s[1] == '['
      && (forall k :: 2 <= k < r.value - 1 ==> IsParam(s[k]))
      && IsFinal(s[r.value - 1])
    ensures r.None? ==> forall m ::
      (2 <= m < |s| && s[0] == Esc && s[1] == '[' && forall k :: 2 <= k < m ==> IsParam(s[k]))
      ==> !IsFinal(s[m])
  {
    if 2 <= |s| && s[0] == Esc && s[1] == '[' then
      var n := 2 + ParamRun(s[2..]);
      assert forall k :: 2 <= k < |s| ==> s[2..][k - 2] == s[k];
      assert forall k :: 2 <= k < n ==> IsParam(s[k]);
      assert n < |s| ==> !IsParam(s[n]);
      if n < |s| && IsFinal(s[n]) then Some(n + 1) else None
    else None
  }

  /** A character that does not start a control sequence is kept. */
  lemma StripAnsiKeepsUnmatched(s: string)
    requires s != [] && SequenceAt(s).None?
    ensures StripAnsi(s) == [s[0]] + StripAnsi(s[1..])
  {
  }

  /** A private-mode sequence such as `ESC [ ? 2 5 l` (hide the cursor)
      does not match `[0-9;]*` followed by a letter, so it is kept whole. */
  lemma StripAnsiKeepsCursorCommand()
    ensures StripAnsi([Esc, '[', '?', '2', '5', 'l']) == [Esc, '[', '?', '2', '5', 'l']
  {
    var s := [Esc, '[', '?', '2', '5', 'l'];
    assert s[2..][0] == '?';
    assert SequenceAt(s) == None;
    StripAnsiNoEscape(s[1..]);
  }

  /** `re.sub(r'\x1b\[[0-9;]*[a-zA-Z]', '', s)`: delete every match,
      scanning left to right, and keep every other character in order. */
  function StripAnsi(s: string): (r: string)
    ensures |r| <= |s|
    decreases |s|
  {
    if s == [] then []
    else match SequenceAt(s)
      case Some(n) => StripAnsi(s[n..])
      case None => [s[0]] + StripAnsi(s[1..])
  }

  /** Text without an escape character in front of the rest passes through. */
  lemma {:induction false} StripAnsiPlainPrefix(t: string, rest: string)
    requires Esc !in t
    ensures StripAnsi(t + rest) == t + StripAnsi(rest)
  {
    if t != [] {
      assert (t + rest)[0] == t[0];
      assert (t + rest)[1..] == t[1..] + rest;
      StripAnsiPlainPrefix(t[1..], rest);
    } else {
      assert t + rest == rest;
    }
  }

  /** A string without an escape character is unchanged. */
  lemma StripAnsiNoEscape(s: string)
    requires Esc !in s
    ensures StripAnsi(s) == s
  {
    StripAnsiPlainPrefix(s, []);
    assert s + [] == s;
  }

  /** One piece of terminal output: plain text, or a control sequence
      `ESC [ params final`. */
  datatype Segment = Plain(text: string) | Csi(params: string, final: char)

  ghost predicate ValidSegment(g: Segment) {
    match g
    case Plain(t) => Esc !in t
    case Csi(ps, f) => (forall k :: 0 <= k < |ps| ==> IsParam(ps[k])) && IsFinal(f)
  }

  function Render(segs: seq<Segment>): string {
    if segs == [] then []
    else
      (match segs[0]
       case Plain(t) => t
       case Csi(ps, f) => [Esc, '['] + ps + [f])
      + Render(segs[1..])
  }

  function PlainText(segs: seq<Segment>): string {
    if segs == [] then []
    else (match segs[0] case Plain(t) => t case Csi(_, _) => []) + PlainText(segs[1..])
  }

  lemma {:induction false} ParamRunStops(ps: string, f: char, rest: string)
    requires forall k :: 0 <= k < |ps| ==> IsParam(ps[k])
    requires IsFinal(f)
    ensures ParamRun(ps + [f] + rest) == |ps|
  {
    if ps != [] {
      assert (ps + [f] + rest)[1..] == ps[1..] + [f] + rest;
      ParamRunStops(ps[1..], f, rest);
    }
  }

  /** A well-formed control sequence in front of the rest is deleted. */
  lemma StripAnsiSequencePrefix(ps: string, f: char, rest: string)
    requires forall k :: 0 <= k < |ps| ==> IsParam(ps[k])
    requires IsFinal(f)
    ensures StripAnsi([Esc, '['] + ps + [f] + rest) == StripAnsi(rest)
  {
    var s := [Esc, '['] + ps + [f] + rest;
    assert s[2..] == ps + [f] + rest;
    ParamRunStops(ps, f, rest);
    assert s[2 + |ps|] == f;
    assert s[|ps| + 3..] == rest;
  }

  /** Stripping terminal output built from plain text and control
      sequences gives back exactly the plain text. */
  lemma {:induction false} StripAnsiRender(segs: seq<Segment>)
    requires forall i :: 0 <= i < |segs| ==> ValidSegment(segs[i])
    ensures StripAnsi(Render(segs)) == PlainText(segs)
  {
    if segs != [] {
      StripAnsiRender(segs[1..]);
      match segs[0]
      case Plain(t) =>
        StripAnsiPlainPrefix(t, Render(segs[1..]));
      case Csi(ps, f) =>
        assert ValidSegment(segs[0]);
        StripAnsiSequencePrefix(ps, f, Render(segs[1..]));
        assert [Esc, '['] + ps + [f] + Render(segs[1..]) == Render(segs);
    }
  }

  /** A lone control sequence is deleted entirely. */
  lemma StripAnsiLoneSequence()
    ensures StripAnsi([Esc, '[', 'm']) == []
  {
    StripAnsiSequencePrefix([], 'm', []);
    assert [Esc, '['] + [] + ['m'] + [] == [Esc, '[', 'm'];
    assert StripAnsi([]) == [];
  }

  /** Deleting the inner sequence of `ESC ESC [ m [ m` joins the outer
      escape to the trailing `[ m`. */
  lemma StripAnsiExposes()
    ensures StripAnsi([Esc, Esc, '[', 'm', '[', 'm']) == [Esc, '[', 'm']
  {
    var s := [Esc, Esc, '[', 'm', '[', 'm'];
    assert SequenceAt(s) == None;
    assert s[1..] == [Esc, '[', 'm'] + ['[', 'm'];
    StripAnsiSequencePrefix([], 'm', ['[', 'm']);
    assert [Esc, '['] + [] + ['m'] + ['[', 'm'] == s[1..];
    StripAnsiNoEscape(['[', 'm']);
  }

  /** Deleting matches can expose a new match: the cleaning is not idempotent. */
  lemma StripAnsiNotIdempotent()
    ensures var s := [Esc, Esc, '[', 'm', '[', 'm'];
      StripAnsi(s) == [Esc, '[', 'm'] && StripAnsi(StripAnsi(s)) == []
  {
    StripAnsiExposes();
    StripAnsiLoneSequence();
  }

  // ── The CLI call ────────────────────────────────────────────────────

  /** What `subprocess.run` gives back: a finished process, or one of the
      exceptions `generate_reply` catches. */
  datatype CliResult =
    | Completed(returnCode: int, stdout: string, stderr: string)
    | TimedOut
    | CommandNotFound
    | Failed(message: string)

  /** The reply text cut from the CLI's standard output. */
  function CleanReply(stdout: string): (r: string)
    ensures NoOuterSpace(r)
  {
    Strip(StripAnsi(Strip(stdout)))
  }

  /** `generate_reply`: run the command built from the name and the
      message; only a zero exit status with output that is not blank once
      cleaned gives a reply. */
  function GenerateReply(contactName: string, message: string, cli: string -> CliResult): (r: Option<string>)
    ensures r.Some? ==> r.value != [] && NoOuterSpace(r.value)
    ensures r.Some? ==> var res := cli(Command(contactName, message));
      res.Completed? && res.returnCode == 0 && r.value == CleanReply(res.stdout)
    ensures cli(Command(contactName, message)).Completed? && cli(Command(contactName, message)).returnCode != 0
      ==> r == None
    ensures !cli(Command(contactName, message)).Completed? ==> r == None
    ensures var res := cli(Command(contactName, message));
      res.Completed? && res.returnCode == 0 && CleanReply(res.stdout) != []
      ==> r == Some(CleanReply(res.stdout))
  {
    match cli(Command(contactName, message))
    case Completed(code, out, _) =>
      if code != 0 then None
      else
        var reply := CleanReply(out);
        if reply == [] then None else Some(reply)
    case TimedOut => None
    case CommandNotFound => None
    case Failed(_) => None
  }
}
