/**
 Model of the command-line player (tools/cadence-cli/src/main.rs): it loads the file named on
 the command line, then reads lines and maps the first word of each to a call on the player,
 until the input ends or a quit word arrives.

 Printing, flushing and argument parsing are not modelled. The player calls are recorded as
 a trace and, to follow their effect, applied to the core player.
 */
module Cli {
  import opened Results
  import Core

  /** Rust's `char::is_whitespace`: the characters with the Unicode `White_Space` property. */
  predicate IsWhitespace(c: char)
  {
    || '\t' <= c <= '\r'
    || c == ' ' || c == '\U{85}' || c == '\U{A0}' || c == '\U{1680}'
    || '\U{2000}' <= c <= '\U{200A}'
    || c == '\U{2028}' || c == '\U{2029}' || c == '\U{202F}' || c == '\U{205F}' || c == '\U{3000}'
  }

  predicate AllWhitespace(s: string)
  {
    forall i :: 0 <= i < |s| ==> IsWhitespace(s[i])
  }

  /** `str::trim_start`. */
  function TrimStart(s: string): string
    decreases |s|
  {
    if |s| > 0 && IsWhitespace(s[0]) then TrimStart(s[1..]) else s
  }

  /** `str::trim_end`. */
  function TrimEnd(s: string): string
    decreases |s|
  {
    if |s| > 0 && IsWhitespace(s[|s| - 1]) then TrimEnd(s[..|s| - 1]) else s
  }

  /** `str::trim`: both ends. The result is a piece of the line that neither starts nor ends
      with whitespace. */
  function Trim(s: string): (r: string)
    ensures |r| <= |s|
    ensures |r| > 0 ==> !IsWhitespace(r[0]) && !IsWhitespace(r[|r| - 1])
  {
    var t := TrimStart(s);
    TrimStartSpec(s);
    TrimEndSpec(t);
    TrimEnd(t)
  }

  /** `trim_start` removes exactly the leading whitespace. */
  lemma {:induction false} TrimStartSpec(s: string)
    ensures var r := TrimStart(s);
            && |r| <= |s| && r == s[|s| - |r|..]
            && (|r| > 0 ==> !IsWhitespace(r[0]))
            && AllWhitespace(s[..|s| - |r|])
    decreases |s|
  {
    if |s| > 0 && IsWhitespace(s[0]) {
      TrimStartSpec(s[1..]);
      var r := TrimStart(s[1..]);
      assert s[..|s| - |r|] == [s[0]] + s[1..][..|s| - 1 - |r|];
    }
  }

  /** `trim_end` removes exactly the trailing whitespace. */
  lemma {:induction false} TrimEndSpec(s: string)
    ensures var r := TrimEnd(s);
            && |r| <= |s| && r == s[..|r|]
            && (|r| > 0 ==> !IsWhitespace(r[|r| - 1]))
            && AllWhitespace(s[|r|..])
    decreases |s|
  {
    if |s| > 0 && IsWhitespace(s[|s| - 1]) {
      TrimEndSpec(s[..|s| - 1]);
      var r := TrimEnd(s[..|s| - 1]);
      assert s[|r|..] == s[..|s| - 1][|r|..] + [s[|s| - 1]];
    }
  }

  /** The run of non-whitespace characters `s` starts with. */
  function LeadingWord(s: string): (w: string)
    ensures |w| <= |s|
    ensures |s| > 0 && !IsWhitespace(s[0]) ==> |w| > 0
    decreases |s|
  {
    if |s| == 0 || IsWhitespace(s[0]) then "" else [s[0]] + LeadingWord(s[1..])
  }

  /** The leading word is a prefix without whitespace, ended by whitespace or the end. */
  lemma {:induction false} LeadingWordSpec(s: string)
    ensures var w := LeadingWord(s);
            && w == s[..|w|]
            && (forall i :: 0 <= i < |w| ==> !IsWhitespace(w[i]))
            && (|w| < |s| ==> IsWhitespace(s[|w|]))
    decreases |s|
  {
    if |s| > 0 && !IsWhitespace(s[0]) {
      LeadingWordSpec(s[1..]);
    }
  }

  /** `str::split_whitespace`: the maximal runs of non-whitespace characters, in order. */
  function Words(s: string): (ws: seq<string>)
    ensures |ws| <= |s|
    decreases |s|
  {
    if |s| == 0 then []
    else if IsWhitespace(s[0]) then Words(s[1..])
    else
      var w := LeadingWord(s);
      [w] + Words(s[|w|..])
  }

  /** Every word is non-empty and free of whitespace. */
  lemma {:induction false} WordsAreWhitespaceFree(s: string)
    ensures forall k :: 0 <= k < |Words(s)| ==>
              |Words(s)[k]| > 0 && forall i :: 0 <= i < |Words(s)[k]| ==> !IsWhitespace(Words(s)[k][i])
    decreases |s|
  {
    if |s| > 0 {
      if IsWhitespace(s[0]) {
        WordsAreWhitespaceFree(s[1..]);
      } else {
        var w := LeadingWord(s);
        LeadingWordSpec(s);
        WordsAreWhitespaceFree(s[|w|..]);
        assert Words(s) == [w] + Words(s[|w|..]);
      }
    }
  }

  /** Leading whitespace does not change the words. */
  lemma {:induction false} WordsSkipWhitespace(lead: string, s: string)
    requires AllWhitespace(lead)
    ensures Words(lead + s) == Words(s)
    decreases |lead|
  {
    if |lead| > 0 {
      var x := lead + s;
      assert x[0] == lead[0] && IsWhitespace(x[0]);
      assert x[1..] == lead[1..] + s;
      assert AllWhitespace(lead[1..]) by {
        forall i | 0 <= i < |lead[1..]| ensures IsWhitespace(lead[1..][i]) {
          assert lead[1..][i] == lead[i + 1];
        }
      }
      WordsSkipWhitespace(lead[1..], s);
    } else {
      assert lead + s == s;
    }
  }

  /** A word followed by whitespace (or nothing) is the leading word. */
  lemma {:induction false} LeadingWordOf(w: string, rest: string)
    requires forall i :: 0 <= i < |w| ==> !IsWhitespace(w[i])
    requires |rest| == 0 || IsWhitespace(rest[0])
    ensures LeadingWord(w + rest) == w
    decreases |w|
  {
    if |w| > 0 {
      assert (w + rest)[1..] == w[1..] + rest;
      LeadingWordOf(w[1..], rest);
    } else {
      assert w + rest == rest;
    }
  }

  /** The words of a word followed by whitespace and more text. */
  lemma FirstWordThenRest(w: string, rest: string)
    requires |w| > 0 && forall i :: 0 <= i < |w| ==> !IsWhitespace(w[i])
    requires |rest| == 0 || IsWhitespace(rest[0])
    ensures Words(w + rest) == [w] + Words(rest)
  {
    LeadingWordOf(w, rest);
    assert (w + rest)[|w|..] == rest;
  }

  /** A trailing whitespace character does not change the words. */
  lemma {:induction false} WordsSnocWhitespace(s: string, c: char)
    requires IsWhitespace(c)
    ensures Words(s + [c]) == Words(s)
    decreases |s|
  {
    var s1 := s + [c];
    if |s| == 0 {
      assert s1[1..] == [];
    } else if IsWhitespace(s[0]) {
      assert s1[1..] == s[1..] + [c];
      WordsSnocWhitespace(s[1..], c);
    } else {
      var w := LeadingWord(s);
      LeadingWordSpec(s);
      var rest := s[|w|..];
      assert s == w + rest;
      LeadingWordOf(w, rest);
      LeadingWordOf(w, rest + [c]);
      assert s1 == w + (rest + [c]);
      assert s1[|w|..] == rest + [c];
      WordsSnocWhitespace(rest, c);
    }
  }

  /** Trailing whitespace does not change the words. */
  lemma {:induction false} WordsOfTrimEnd(s: string)
    ensures Words(TrimEnd(s)) == Words(s)
    decreases |s|
  {
    if |s| > 0 && IsWhitespace(s[|s| - 1]) {
      WordsOfTrimEnd(s[..|s| - 1]);
      WordsSnocWhitespace(s[..|s| - 1], s[|s| - 1]);
      assert s[..|s| - 1] + [s[|s| - 1]] == s;
    }
  }

  /** Trimming before splitting on whitespace changes nothing. */
  lemma WordsOfTrim(s: string)
    ensures Words(Trim(s)) == Words(s)
  {
    var t := TrimStart(s);
    TrimStartSpec(s);
    var lead := s[..|s| - |t|];
    assert s == lead + t;
    WordsSkipWhitespace(lead, t);
    WordsOfTrimEnd(t);
    assert Trim(s) == TrimEnd(t);
  }

  /** A line has no words exactly when it is blank. */
  lemma {:induction false} NoWordsIffBlank(s: string)
    ensures Words(s) == [] <==> AllWhitespace(s)
    decreases |s|
  {
    if |s| > 0 {
      NoWordsIffBlank(s[1..]);
      if IsWhitespace(s[0]) {
        assert AllWhitespace(s) <==> AllWhitespace(s[1..]) by {
          if AllWhitespace(s[1..]) {
            forall i | 0 <= i < |s| ensures IsWhitespace(s[i]) {
              if i > 0 { assert s[i] == s[1..][i - 1]; }
            }
          }
        }
      }
    }
  }

  /** What a line asks for. */
  datatype Command = Blank | Pause | Resume | Stop | Quit | Help | Unknown(word: string)

  /** The command a first word selects; matching is exact and case-sensitive. */
  function Keyword(w: string): (c: Command)
    ensures c.Pause? <==> w == "pause"
    ensures c.Resume? <==> w == "resume"
    ensures c.Stop? <==> w == "stop"
    ensures c.Quit? <==> w in {"quit", "q", "exit"}
    ensures c.Help? <==> w in {"help", "h"}
    ensures !c.Blank?
  {
    match w
    case "pause" => Pause
    case "resume" => Resume
    case "stop" => Stop
    case "quit" => Quit
    case "q" => Quit
    case "exit" => Quit
    case "help" => Help
    case "h" => Help
    case _ => Unknown(w)
  }

  /** The command of one input line: the first whitespace-separated word of the trimmed line.
      Trimming changes no word, so the command is that of the line's own first word. */
  function Classify(line: string): (c: Command)
    ensures c.Blank? <==> AllWhitespace(line)
    ensures !c.Blank? ==> |Words(line)| > 0 && c == Keyword(Words(line)[0])
  {
    WordsOfTrim(line);
    NoWordsIffBlank(line);
    var parts := Words(Trim(line));
    if |parts| == 0 then Blank else Keyword(parts[0])
  }

  /** Only the first word selects the command: leading whitespace and anything after the
      first word are ignored. */
  lemma ClassifyFirstWordOnly(lead: string, w: string, rest: string)
    requires AllWhitespace(lead)
    requires |w| > 0 && forall i :: 0 <= i < |w| ==> !IsWhitespace(w[i])
    requires |rest| == 0 || IsWhitespace(rest[0])
    ensures Classify(lead + w + rest) == Keyword(w)
  {
    var line := lead + w + rest;
    WordsOfTrim(line);
    assert line == lead + (w + rest);
    WordsSkipWhitespace(lead, w + rest);
    FirstWordThenRest(w, rest);
  }

  /** Blank and whitespace-only lines, and only they, are `Blank`. */
  lemma BlankIffWhitespace(line: string)
    ensures Classify(line).Blank? <==> AllWhitespace(line)
  {
    WordsOfTrim(line);
    NoWordsIffBlank(line);
  }

  /** A call the command-line player makes on the player. */
  datatype Call = PauseCall | ResumeCall | StopCall

  /** The player calls a command makes. */
  function Calls(c: Command): (calls: seq<Call>)
    ensures |calls| <= 1
    ensures calls == [PauseCall] <==> c.Pause?
    ensures calls == [ResumeCall] <==> c.Resume?
    ensures calls == [StopCall] <==> c.Stop? || c.Quit?
  {
    match c
    case Pause => [PauseCall]
    case Resume => [ResumeCall]
    case Stop => [StopCall]
    case Quit => [StopCall]
    case _ => []
  }

  /** One item of the input: a line, or the error reading it produced. */
  datatype Line = Line(text: string) | ReadFailed(cause: string)

  /** An item of the input as the loop sees it: a line's command, or a read error. */
  datatype Item = Cmd(command: Command) | Failed(cause: string)

  function Read(l: Line): (item: Item)
    ensures l.Line? ==> item == Cmd(Classify(l.text))
    ensures l.ReadFailed? ==> item == Failed(l.cause)
  {
    match l
    case Line(text) => Cmd(Classify(text))
    case ReadFailed(cause) => Failed(cause)
  }

  function Items(lines: seq<Line>): (items: seq<Item>)
    ensures |items| == |lines|
    ensures forall i :: 0 <= i < |lines| ==> items[i] == Read(lines[i])
  {
    seq(|lines|, i requires 0 <= i < |lines| => Read(lines[i]))
  }

  /** How the line loop ends: the calls it made and whether it ended by an error. */
  datatype Exit = Exit(calls: seq<Call>, status: Result<(), string>)

  /** The line loop over classified items: each item's calls in order, until the input ends,
      a line cannot be read, or a quit word stops the player and ends the loop. */
  function Loop(items: seq<Item>): (r: Exit)
    ensures |r.calls| <= |items|
    decreases |items|
  {
    if |items| == 0 then Exit([], Ok(()))
    else
      match items[0]
      case Failed(cause) => Exit([], Err(cause))
      case Cmd(c) =>
        if c.Quit? then Exit([StopCall], Ok(()))
        else
          var rest := Loop(items[1..]);
          Exit(Calls(c) + rest.calls, rest.status)
  }

  /** The calls one item makes when the loop reaches it and goes on. */
  function ItemCalls(item: Item): seq<Call>
  {
    match item
    case Cmd(c) => Calls(c)
    case Failed(_) => []
  }

  /** The calls of a run of items, concatenated in order; defined from the last item back, as
      an independent reference for the loop. */
  function Trace(items: seq<Item>): seq<Call>
    decreases |items|
  {
    if |items| == 0 then [] else Trace(items[..|items| - 1]) + ItemCalls(items[|items| - 1])
  }

  /** Items the loop goes on after: read lines that are not quit words. */
  predicate Continues(items: seq<Item>)
  {
    forall i :: 0 <= i < |items| ==> items[i].Cmd? && !items[i].command.Quit?
  }

  lemma {:induction false} TraceCons(item: Item, rest: seq<Item>)
    ensures Trace([item] + rest) == ItemCalls(item) + Trace(rest)
    decreases |rest|
  {
    var items := [item] + rest;
    if |rest| == 0 {
      assert items[..0] == [];
    } else {
      var init := rest[..|rest| - 1];
      assert items[..|items| - 1] == [item] + init;
      TraceCons(item, init);
      assert ItemCalls(item) + Trace(init) + ItemCalls(rest[|rest| - 1])
          == ItemCalls(item) + (Trace(init) + ItemCalls(rest[|rest| - 1]));
    }
  }

  /** Until the input ends, every line makes its own calls, in order, and the loop ends well:
      each pause, resume and stop line calls the same-named operation once. */
  lemma {:induction false} LoopMakesEachLinesCalls(items: seq<Item>)
    requires Continues(items)
    ensures Loop(items) == Exit(Trace(items), Ok(()))
    decreases |items|
  {
    if |items| > 0 {
      assert Continues(items[1..]) by {
        forall i | 0 <= i < |items[1..]| ensures items[1..][i].Cmd? && !items[1..][i].command.Quit? {
          assert items[1..][i] == items[i + 1];
        }
      }
      LoopMakesEachLinesCalls(items[1..]);
      TraceCons(items[0], items[1..]);
      assert [items[0]] + items[1..] == items;
    }
  }

  /** A line that cannot be read ends the loop with that error, after the calls of the lines
      before it; nothing after it is looked at. */
  lemma {:induction false} ReadFailureEndsLoop(before: seq<Item>, cause: string, after: seq<Item>)
    requires Continues(before)
    ensures Loop(before + [Failed(cause)] + after) == Exit(Trace(before), Err(cause))
    decreases |before|
  {
    var items := before + [Failed(cause)] + after;
    if |before| == 0 {
      assert items[0] == Failed(cause);
    } else {
      assert items[0] == before[0];
      assert items[1..] == before[1..] + [Failed(cause)] + after;
      assert Continues(before[1..]) by {
        forall i | 0 <= i < |before[1..]| ensures before[1..][i].Cmd? && !before[1..][i].command.Quit? {
          assert before[1..][i] == before[i + 1];
        }
      }
      ReadFailureEndsLoop(before[1..], cause, after);
      TraceCons(before[0], before[1..]);
      assert [before[0]] + before[1..] == before;
    }
  }

  /** The line loop over the lines read. */
  function Repl(lines: seq<Line>): (r: Exit)
    ensures |r.calls| <= |lines|
  {
    Loop(Items(lines))
  }

  /** The loop as the program runs it: read, classify, call, stop at a quit word. */
  method ReadLoop(lines: seq<Line>) returns (calls: seq<Call>, status: Result<(), string>)
    ensures Exit(calls, status) == Repl(lines)
  {
    ghost var items := Items(lines);
    calls, status := [], Ok(());
    var i := 0;
    while i < |lines|
      invariant 0 <= i <= |lines|
      invariant Loop(items) == Exit(calls + Loop(items[i..]).calls, Loop(items[i..]).status)
    {
      ghost var before := calls;
      ghost var rest := Loop(items[i + 1..]);
      assert items[i..][0] == items[i];
      assert items[i..][1..] == items[i + 1..];
      var item := Read(lines[i]);
      if item.Failed? {
        status := Err(item.cause);
        assert calls + [] == calls;
        return;
      }
      var c := item.command;
      calls := calls + Calls(c);
      if c.Quit? {
        return;
      }
      assert before + (Calls(c) + rest.calls) == calls + rest.calls;
      i := i + 1;
    }
    assert items[i..] == [];
    assert calls + [] == calls;
  }

  /** Items before a quit word each contribute their own calls; the quit word adds one stop,
      and nothing after it is looked at. */
  lemma {:induction false} QuitEndsLoop(before: seq<Item>, after: seq<Item>)
    requires Continues(before)
    ensures Loop(before + [Cmd(Quit)] + after) == Exit(Trace(before) + [StopCall], Ok(()))
    decreases |before|
  {
    var items := before + [Cmd(Quit)] + after;
    if |before| == 0 {
      assert items[0] == Cmd(Quit);
    } else {
      assert items[0] == before[0];
      assert items[1..] == before[1..] + [Cmd(Quit)] + after;
      assert Continues(before[1..]) by {
        forall i | 0 <= i < |before[1..]| ensures before[1..][i].Cmd? && !before[1..][i].command.Quit? {
          assert before[1..][i] == before[i + 1];
        }
      }
      QuitEndsLoop(before[1..], after);
      TraceCons(before[0], before[1..]);
      assert [before[0]] + before[1..] == before;
      var head := Calls(before[0].command);
      assert head + (Trace(before[1..]) + [StopCall]) == (head + Trace(before[1..])) + [StopCall];
    }
  }

  /** Lines that are read and are not quit words let the loop go on. */
  predicate ReadAndGoOn(lines: seq<Line>)
  {
    forall i :: 0 <= i < |lines| ==> lines[i].Line? && !Classify(lines[i].text).Quit?
  }

  /** A quit line stops the player and ends the session: the lines after it are never read. */
  lemma QuitLineEndsRepl(before: seq<Line>, quit: string, after: seq<Line>)
    requires ReadAndGoOn(before)
    requires Classify(quit).Quit?
    ensures Repl(before + [Line(quit)] + after) == Exit(Repl(before).calls + [StopCall], Ok(()))
  {
    var lines := before + [Line(quit)] + after;
    assert Items(lines) == Items(before) + [Cmd(Quit)] + Items(after);
    QuitEndsLoop(Items(before), Items(after));
    LoopMakesEachLinesCalls(Items(before));
  }

  /** A line that cannot be read ends the session with that error, after the calls of the lines
      before it; the lines after it are never read. */
  lemma ReadFailureEndsRepl(before: seq<Line>, cause: string, after: seq<Line>)
    requires ReadAndGoOn(before)
    ensures Repl(before + [ReadFailed(cause)] + after) == Exit(Repl(before).calls, Err(cause))
  {
    var lines := before + [ReadFailed(cause)] + after;
    assert Items(lines) == Items(before) + [Failed(cause)] + Items(after);
    ReadFailureEndsLoop(Items(before), cause, Items(after));
    LoopMakesEachLinesCalls(Items(before));
  }

  /** The core player after the calls, in order. */
  function Apply(p: Core.Player, calls: seq<Call>): Core.Player
    decreases |calls|
  {
    if |calls| == 0 then p
    else
      var q := match calls[0]
        case PauseCall => Core.Pause(p)
        case ResumeCall => Core.Resume(p)
        case StopCall => Core.Stop(p);
      Apply(q, calls[1..])
  }

  /** Calls that end with a stop leave the player with nothing queued. */
  lemma {:induction false} ApplyEndingInStop(p: Core.Player, calls: seq<Call>)
    ensures Core.Empty(Apply(p, calls + [StopCall]))
    decreases |calls|
  {
    if |calls| == 0 {
      assert [StopCall][1..] == [];
    } else {
      assert (calls + [StopCall])[1..] == calls[1..] + [StopCall];
      var q := match calls[0]
        case PauseCall => Core.Pause(p)
        case ResumeCall => Core.Resume(p)
        case StopCall => Core.Stop(p);
      ApplyEndingInStop(q, calls[1..]);
    }
  }

  /** What a whole run of the program did. */
  datatype Session = Session(calls: seq<Call>, status: Result<(), string>, player: Option<Core.Player>)

  /**
   `main`: create the player, load and start the file, then run the line loop. `created` is
   what creating the player produced; `probe` and `reopen` are the two decodings loading
   performs. A failure before the loop ends the program before any line is read.
   */
  function Main(created: Result<Core.Player, Core.Error>, path: string, probe: Core.Decoding,
                reopen: Core.Decoding, lines: seq<Line>): (r: Session)
    ensures created.Err? ==> r == Session([], Err(Core.Message(created.error)), None)
    ensures created.Ok? && Core.LoadAndPlay(created.value, path, probe, reopen).1.Err? ==>
              r.calls == [] && r.status.Err?
    ensures r.calls != [] ==> created.Ok? && probe.Decoded? && reopen.Decoded?
    ensures r.calls != [] ==> r.calls == Repl(lines).calls
    ensures created.Ok? && Core.LoadAndPlay(created.value, path, probe, reopen).1.Ok? ==>
              && r.calls == Repl(lines).calls && r.status == Repl(lines).status
              && r.player == Some(Apply(Core.LoadAndPlay(created.value, path, probe, reopen).0, r.calls))
  {
    match created
    case Err(e) => Session([], Err(Core.Message(e)), None)
    case Ok(p) =>
      var (loaded, result) := Core.LoadAndPlay(p, path, probe, reopen);
      match result
      case Err(e) => Session([], Err(Core.Message(e)), Some(loaded))
      case Ok(_) =>
        var exit := Repl(lines);
        Session(exit.calls, exit.status, Some(Apply(loaded, exit.calls)))
  }

  /** A session the user quits ends well, with the player stopped and nothing queued. */
  lemma QuitLeavesPlayerEmpty(p: Core.Player, path: string, total: Option<Core.Duration>,
                              before: seq<Line>, quit: string, after: seq<Line>)
    requires ReadAndGoOn(before)
    requires Classify(quit).Quit?
    ensures var r := Main(Ok(p), path, Core.Decoded(total), Core.Decoded(total), before + [Line(quit)] + after);
            r.status.Ok? && r.player.Some? && Core.Empty(r.player.value) &&
            r.calls == Repl(before).calls + [StopCall]
  {
    QuitLineEndsRepl(before, quit, after);
    var loaded := Core.LoadAndPlay(p, path, Core.Decoded(total), Core.Decoded(total)).0;
    ApplyEndingInStop(loaded, Repl(before).calls);
  }
}
