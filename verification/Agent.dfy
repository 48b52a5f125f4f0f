/** `src/harness/agent.rs`: the activity log kept from the agent's stream. */
module Agent {
  import opened Wrappers
  import opened Text

  // ---- events, as the JSON parser hands them over -----------------------------------------------

  datatype ToolUse = ToolUse(id: Option<string>, name: string, line: string)
  datatype ToolResult = ToolResult(id: Option<string>, isError: bool)
  datatype ToolCount = Uncounted | Started | Completed

  datatype Body =
    | ToolUses(uses: seq<ToolUse>)           // Claude's `assistant`
    | ToolResults(results: seq<ToolResult>)  // Claude's `user`
    | Notable(line: string, count: ToolCount)
    | Silent

  datatype Event = Event(sessionId: Option<string>, body: Body)
  datatype Summary = Summary(text: string, count: ToolCount)

  type Names = map<string, string>

  // ---- what one line does -----------------------------------------------------------------------

  datatype Progress = Progress(sessionId: Option<string>, toolCallsStarted: nat,
                               toolCallsCompleted: nat, lastActivity: string)

  /** Everything the logger keeps besides the unfinished line. */
  datatype Seen = Seen(progress: Progress, toolNames: Names, log: seq<Summary>)

  const NOTHING := Seen(Progress(None, 0, 0, ""), map[], [])

  function SummarizeUses(uses: seq<ToolUse>, names: Names): (seq<Summary>, Names) {
    if uses == [] then ([], names)
    else
      var names1 := if uses[0].id.Some? then names[uses[0].id.value := uses[0].name] else names;
      var (rest, names2) := SummarizeUses(uses[1..], names1);
      ([Summary(uses[0].line, Started)] + rest, names2)
  }

  function SummarizeResults(results: seq<ToolResult>, names: Names): (seq<Summary>, Names) {
    if results == [] then ([], names)
    else
      var id := results[0].id;
      var name := if id.Some? && id.value in names then names[id.value] else "tool";
      var names1 := if id.Some? then names - {id.value} else names;
      var (rest, names2) := SummarizeResults(results[1..], names1);
      ([Summary("TOOL DONE " + name + (if results[0].isError then " error" else ""), Completed)] + rest,
       names2)
  }

  /** `summarize_stream_event`. */
  function Summarize(event: Event, names: Names): (seq<Summary>, Names) {
    match event.body
    case ToolUses(uses) => SummarizeUses(uses, names)
    case ToolResults(results) => SummarizeResults(results, names)
    case Notable(line, count) => ([Summary(line, count)], names)
    case Silent => ([], names)
  }

  function Note(s: Seen, summary: Summary): Seen {
    var p := s.progress;
    s.(progress := p.(
         toolCallsStarted := p.toolCallsStarted + (if summary.count.Started? then 1 else 0),
         toolCallsCompleted := p.toolCallsCompleted + (if summary.count.Completed? then 1 else 0),
         lastActivity := summary.text),
       log := s.log + [summary])
  }

  function NoteAll(s: Seen, summaries: seq<Summary>): Seen {
    if summaries == [] then s
    else Note(NoteAll(s, summaries[..|summaries| - 1]), summaries[|summaries| - 1])
  }

  /** `process_line`. */
  function OnLine(s: Seen, line: string, parse: string -> Option<Event>): Seen {
    match parse(line)
    case None => s
    case Some(event) =>
      var (summaries, names) := Summarize(event, s.toolNames);
      if summaries == [] then s.(toolNames := names)
      else
        var p := if event.sessionId.Some? then s.progress.(sessionId := event.sessionId) else s.progress;
        NoteAll(s.(toolNames := names, progress := p), summaries)
  }

  /** A line as it stands in the stream: trimmed, and skipped when nothing is left. */
  function OnRawLine(s: Seen, raw: string, parse: string -> Option<Event>): Seen {
    var line := Trim(raw);
    if line == "" then s else OnLine(s, line, parse)
  }

  // ---- lines from chunks ------------------------------------------------------------------------

  /** The first newline, found from `i` on. */
  function Newline(text: string, i: nat): (r: Option<nat>)
    requires i <= |text|
    ensures r.Some? ==> i <= r.value < |text| && text[r.value] == '\n'
    decreases |text| - i
  {
    if i == |text| then None else if text[i] == '\n' then Some(i) else Newline(text, i + 1)
  }

  lemma {:induction false} NewlineInFirst(a: string, b: string, i: nat)
    requires i <= |a| && Newline(a, i).Some?
    ensures Newline(a + b, i) == Newline(a, i)
    decreases |a| - i
  {
    assert (a + b)[i] == a[i];
    if a[i] != '\n' { NewlineInFirst(a, b, i + 1); }
  }

  /** Process every complete line of `text`; what follows the last newline is left over. */
  function Drain(s: Seen, text: string, parse: string -> Option<Event>): (Seen, string)
    decreases |text|
  {
    match Newline(text, 0)
    case None => (s, text)
    case Some(n) => Drain(OnRawLine(s, text[..n], parse), text[n + 1..], parse)
  }

  /** Draining part of the text first changes neither what was seen nor what is left. */
  lemma {:induction false} DrainInTwo(s: Seen, a: string, b: string, parse: string -> Option<Event>)
    ensures var (s1, left) := Drain(s, a, parse);
            Drain(s1, left + b, parse) == Drain(s, a + b, parse)
    decreases |a|
  {
    match Newline(a, 0)
    case None =>
    case Some(n) =>
      NewlineInFirst(a, b, 0);
      assert (a + b)[..n] == a[..n] && (a + b)[n + 1..] == a[n + 1..] + b;
      DrainInTwo(OnRawLine(s, a[..n], parse), a[n + 1..], b, parse);
  }

  ghost function Feed(s: Seen, buffer: string, chunks: seq<string>, parse: string -> Option<Event>)
    : (Seen, string)
    decreases |chunks|
  {
    if chunks == [] then (s, buffer)
    else
      var (s1, left) := Drain(s, buffer + chunks[0], parse);
      Feed(s1, left, chunks[1..], parse)
  }

  function Concat(chunks: seq<string>): string {
    if chunks == [] then "" else chunks[0] + Concat(chunks[1..])
  }

  /** However the stream is cut, the logger ends where one chunk would have taken it. */
  lemma {:induction false} ChunksDoNotMatter(s: Seen, buffer: string, chunks: seq<string>,
                                             parse: string -> Option<Event>)
    requires Newline(buffer, 0).None?
    ensures Feed(s, buffer, chunks, parse) == Drain(s, buffer + Concat(chunks), parse)
    decreases |chunks|
  {
    if chunks == [] {
      assert buffer + "" == buffer;
    } else {
      assert Concat(chunks) == chunks[0] + Concat(chunks[1..]);
      hide Drain, Newline, Concat;
      var text, rest := buffer + chunks[0], Concat(chunks[1..]);
      var (s1, left) := Drain(s, text, parse);
      var done := DrainLeavesNoLine(s, text, parse);
      ChunksDoNotMatter(s1, left, chunks[1..], parse);
      DrainInTwo(s, text, rest, parse);
      Associative(buffer, chunks[0], rest);
    }
  }

  /** What is left over is what follows the last newline. */
  lemma {:induction false} DrainLeavesNoLine(s: Seen, text: string, parse: string -> Option<Event>)
    returns (done: string)
    ensures var left := Drain(s, text, parse).1; text == done + left && Newline(left, 0).None?
    ensures done != "" ==> done[|done| - 1] == '\n'
    decreases |text|
  {
    hide Drain, OnRawLine;
    DrainStep(s, text, parse);
    match Newline(text, 0)
    case None =>
      done := "";
    case Some(n) =>
      var s1, rest := OnRawLine(s, text[..n], parse), text[n + 1..];
      var later := DrainLeavesNoLine(s1, rest, parse);
      done := text[..n + 1] + later;
      assert text == text[..n + 1] + (later + Drain(s1, rest, parse).1);
  }

  lemma DrainStep(s: Seen, text: string, parse: string -> Option<Event>)
    ensures Drain(s, text, parse) == match Newline(text, 0)
                                     case None => (s, text)
                                     case Some(n) => Drain(OnRawLine(s, text[..n], parse), text[n + 1..], parse)
  {
    hide OnRawLine;
  }

  // ---- the counters -----------------------------------------------------------------------------

  function CountOf(log: seq<Summary>, count: ToolCount): nat {
    if log == [] then 0
    else CountOf(log[..|log| - 1], count) + (if log[|log| - 1].count == count then 1 else 0)
  }

  /** The progress record is a summary of the log. */
  ghost predicate Agrees(s: Seen) {
    && s.progress.toolCallsStarted == CountOf(s.log, Started)
    && s.progress.toolCallsCompleted == CountOf(s.log, Completed)
    && s.progress.lastActivity == (if s.log == [] then "" else s.log[|s.log| - 1].text)
  }

  lemma {:induction false} NoteAllAgrees(s: Seen, summaries: seq<Summary>)
    requires Agrees(s)
    ensures Agrees(NoteAll(s, summaries)) && NoteAll(s, summaries).log == s.log + summaries
    ensures NoteAll(s, summaries).toolNames == s.toolNames
  {
    if summaries != [] {
      var earlier, last := summaries[..|summaries| - 1], summaries[|summaries| - 1];
      NoteAllAgrees(s, earlier);
      var t := NoteAll(s, earlier);
      assert (t.log + [last])[..|t.log|] == t.log;
      assert s.log + summaries == s.log + earlier + [last];
    }
  }

  lemma {:induction false} DrainAgrees(s: Seen, text: string, parse: string -> Option<Event>)
    requires Agrees(s)
    ensures Agrees(Drain(s, text, parse).0)
    decreases |text|
  {
    match Newline(text, 0)
    case None =>
    case Some(n) =>
      var line := Trim(text[..n]);
      if line != "" && parse(line).Some? {
        var event := parse(line).value;
        var (summaries, names) := Summarize(event, s.toolNames);
        var p := if event.sessionId.Some? then s.progress.(sessionId := event.sessionId) else s.progress;
        NoteAllAgrees(s.(toolNames := names, progress := p), summaries);
      }
      DrainAgrees(OnRawLine(s, text[..n], parse), text[n + 1..], parse);
  }

  // ---- what the log says ------------------------------------------------------------------------

  /** One thing an event tells of. */
  datatype Act = Used(use: ToolUse) | Got(result: ToolResult) | Said(line: string, count: ToolCount)

  function UseActs(uses: seq<ToolUse>): seq<Act> {
    if uses == [] then [] else [Used(uses[0])] + UseActs(uses[1..])
  }

  function ResultActs(results: seq<ToolResult>): seq<Act> {
    if results == [] then [] else [Got(results[0])] + ResultActs(results[1..])
  }

  function ActsOf(event: Event): seq<Act> {
    match event.body
    case ToolUses(uses) => UseActs(uses)
    case ToolResults(results) => ResultActs(results)
    case Notable(line, count) => [Said(line, count)]
    case Silent => []
  }

  /** The tool last started under this id, unless its result has come in since. */
  function Pending(acts: seq<Act>, id: string): Option<string> {
    if acts == [] then None
    else
      var last := acts[|acts| - 1];
      if last.Used? && last.use.id == Some(id) then Some(last.use.name)
      else if last.Got? && last.result.id == Some(id) then None
      else Pending(acts[..|acts| - 1], id)
  }

  /** The line for an act, given those before it: a result is told under the name its tool was started by. */
  ghost predicate Logs(summary: Summary, before: seq<Act>, act: Act) {
    match act
    case Used(use) => summary == Summary(use.line, Started)
    case Said(line, count) => summary == Summary(line, count)
    case Got(result) =>
      var started := if result.id.Some? then Pending(before, result.id.value) else None;
      var name := if started.Some? then started.value else "tool";
      && summary.count == Completed
      && summary.text == if result.isError then "TOOL DONE " + name + " error" else "TOOL DONE " + name
  }

  ghost predicate LogsAll(log: seq<Summary>, before: seq<Act>, acts: seq<Act>) {
    |log| == |acts| && forall i :: 0 <= i < |log| ==> Logs(log[i], before + acts[..i], acts[i])
  }

  ghost predicate Knows(names: Names, acts: seq<Act>) {
    forall id :: Pending(acts, id) == if id in names then Some(names[id]) else None
  }

  lemma PendingMore(acts: seq<Act>, act: Act, id: string)
    ensures Pending(acts + [act], id)
         == if act.Used? && act.use.id == Some(id) then Some(act.use.name)
            else if act.Got? && act.result.id == Some(id) then None
            else Pending(acts, id)
  {
    assert (acts + [act])[..|acts|] == acts;
  }

  lemma LogsFirst(summary: Summary, log: seq<Summary>, before: seq<Act>, act: Act, acts: seq<Act>)
    requires Logs(summary, before, act) && LogsAll(log, before + [act], acts)
    ensures LogsAll([summary] + log, before, [act] + acts)
  {
    hide Logs;
    var all, told := [act] + acts, [summary] + log;
    forall i | 0 <= i < |told| ensures Logs(told[i], before + all[..i], all[i]) {
      if i == 0 {
        assert before + all[..0] == before;
      } else {
        assert (before + [act]) + acts[..i - 1] == before + all[..i];
      }
    }
  }

  lemma UseTells(use: ToolUse, names: Names, before: seq<Act>)
    requires Knows(names, before)
    ensures Logs(Summary(use.line, Started), before, Used(use))
    ensures Knows(if use.id.Some? then names[use.id.value := use.name] else names, before + [Used(use)])
  {
    var known := if use.id.Some? then names[use.id.value := use.name] else names;
    forall id ensures Pending(before + [Used(use)], id) == if id in known then Some(known[id]) else None {
      PendingMore(before, Used(use), id);
    }
    hide Pending;
  }

  lemma {:induction false} UsesTell(uses: seq<ToolUse>, names: Names, before: seq<Act>)
    requires Knows(names, before)
    ensures var (log, after) := SummarizeUses(uses, names);
            LogsAll(log, before, UseActs(uses)) && Knows(after, before + UseActs(uses))
  {
    hide Pending, Logs, Knows;
    if uses == [] {
      assert before + [] == before;
    } else {
      var act, rest := Used(uses[0]), UseActs(uses[1..]);
      var known := if uses[0].id.Some? then names[uses[0].id.value := uses[0].name] else names;
      var (log, after) := SummarizeUses(uses[1..], known);
      assert SummarizeUses(uses, names) == ([Summary(uses[0].line, Started)] + log, after);
      assert UseActs(uses) == [act] + rest;
      hide SummarizeUses, UseActs, LogsAll;
      UseTells(uses[0], names, before);
      UsesTell(uses[1..], known, before + [act]);
      LogsFirst(Summary(uses[0].line, Started), log, before, act, rest);
      assert (before + [act]) + rest == before + ([act] + rest);
    }
  }

  lemma ResultTells(result: ToolResult, names: Names, before: seq<Act>)
    requires Knows(names, before)
    ensures var id := result.id;
            var name := if id.Some? && id.value in names then names[id.value] else "tool";
            && Logs(Summary("TOOL DONE " + name + (if result.isError then " error" else ""), Completed), before,
                    Got(result))
            && Knows(if id.Some? then names - {id.value} else names, before + [Got(result)])
  {
    var id, act := result.id, Got(result);
    var name := if id.Some? && id.value in names then names[id.value] else "tool";
    assert "TOOL DONE " + name + "" == "TOOL DONE " + name;
    var known := if id.Some? then names - {id.value} else names;
    forall x ensures Pending(before + [act], x) == if x in known then Some(known[x]) else None {
      PendingMore(before, act, x);
    }
    hide Pending;
  }

  lemma {:induction false} ResultsTell(results: seq<ToolResult>, names: Names, before: seq<Act>)
    requires Knows(names, before)
    ensures var (log, after) := SummarizeResults(results, names);
            LogsAll(log, before, ResultActs(results)) && Knows(after, before + ResultActs(results))
  {
    hide Pending, Logs, Knows;
    if results == [] {
      assert before + [] == before;
    } else {
      var act, id, rest := Got(results[0]), results[0].id, ResultActs(results[1..]);
      var name := if id.Some? && id.value in names then names[id.value] else "tool";
      var known := if id.Some? then names - {id.value} else names;
      var first := Summary("TOOL DONE " + name + (if results[0].isError then " error" else ""), Completed);
      var (log, after) := SummarizeResults(results[1..], known);
      assert SummarizeResults(results, names) == ([first] + log, after);
      assert ResultActs(results) == [act] + rest;
      hide SummarizeResults, ResultActs, LogsAll;
      ResultTells(results[0], names, before);
      ResultsTell(results[1..], known, before + [act]);
      LogsFirst(first, log, before, act, rest);
      assert (before + [act]) + rest == before + ([act] + rest);
    }
  }

  lemma EventTells(event: Event, names: Names, before: seq<Act>)
    requires Knows(names, before)
    ensures var (log, after) := Summarize(event, names);
            LogsAll(log, before, ActsOf(event)) && Knows(after, before + ActsOf(event))
  {
    match event.body
    case ToolUses(uses) => UsesTell(uses, names, before);
    case ToolResults(results) => ResultsTell(results, names, before);
    case Notable(line, count) =>
      PendingOfSaid(before, Said(line, count));
      assert before + [Said(line, count)][..0] == before;
    case Silent => assert before + [] == before;
  }

  lemma PendingOfSaid(before: seq<Act>, act: Act)
    requires act.Said?
    ensures forall id :: Pending(before + [act], id) == Pending(before, id)
  {
    forall id ensures Pending(before + [act], id) == Pending(before, id) { PendingMore(before, act, id); }
  }

  /** What a line tells of: nothing when it is blank or no event. */
  function LineActs(line: string, parse: string -> Option<Event>): seq<Act> {
    match parse(Trim(line))
    case Some(event) => if Trim(line) == "" then [] else ActsOf(event)
    case None => []
  }

  function LinesActs(lines: seq<string>, parse: string -> Option<Event>): seq<Act> {
    if lines == [] then [] else LineActs(lines[0], parse) + LinesActs(lines[1..], parse)
  }

  /** The session named by the last line that tells of something and names one. */
  function SessionAfter(session: Option<string>, lines: seq<string>, parse: string -> Option<Event>): Option<string>
    decreases |lines|
  {
    if lines == [] then session
    else
      var event := parse(Trim(lines[0]));
      SessionAfter(if LineActs(lines[0], parse) != [] && event.value.sessionId.Some? then event.value.sessionId
                   else session, lines[1..], parse)
  }

  function Streamed(lines: seq<string>): string {
    if lines == [] then "" else lines[0] + ("\n" + Streamed(lines[1..]))
  }

  ghost predicate TellsOf(s: Seen, acts: seq<Act>) {
    LogsAll(s.log, [], acts) && Knows(s.toolNames, acts)
  }

  lemma {:induction false} NewlineIsFirst(text: string, rest: string, i: nat)
    requires '\n' !in text && i <= |text|
    ensures Newline(text + ("\n" + rest), i) == Some(|text|) && Newline(text, i) == None
    decreases |text| - i
  {
    if i < |text| {
      assert text[i] in text && (text + ("\n" + rest))[i] == text[i];
      NewlineIsFirst(text, rest, i + 1);
    }
  }

  lemma LogsBoth(a: seq<Summary>, x: seq<Act>, b: seq<Summary>, y: seq<Act>)
    requires LogsAll(a, [], x) && LogsAll(b, x, y)
    ensures LogsAll(a + b, [], x + y)
  {
    hide Logs;
    forall i | 0 <= i < |a + b| ensures Logs((a + b)[i], [] + (x + y)[..i], (x + y)[i]) {
      if i < |a| {
        assert (x + y)[..i] == x[..i];
      } else {
        assert [] + (x + y)[..i] == x + y[..i - |a|];
      }
    }
  }

  lemma LineTells(s: Seen, line: string, acts: seq<Act>, parse: string -> Option<Event>)
    requires TellsOf(s, acts) && Agrees(s)
    ensures var after := OnRawLine(s, line, parse);
            && TellsOf(after, acts + LineActs(line, parse)) && Agrees(after)
            && after.progress.sessionId == SessionAfter(s.progress.sessionId, [line], parse)
  {
    assert acts + [] == acts;
    if Trim(line) != "" && parse(Trim(line)).Some? {
      var event := parse(Trim(line)).value;
      EventTells(event, s.toolNames, acts);
      var (summaries, names) := Summarize(event, s.toolNames);
      var p := if event.sessionId.Some? then s.progress.(sessionId := event.sessionId) else s.progress;
      NoteAllAgrees(s.(toolNames := names, progress := p), summaries);
      NoteAllSession(s.(toolNames := names, progress := p), summaries);
      LogsBoth(s.log, acts, summaries, ActsOf(event));
      assert |summaries| == |ActsOf(event)|;
      assert s.log + [] == s.log;
    }
    hide Trim, Summarize, Logs, Pending, ActsOf, NoteAll;
  }

  lemma {:induction false} NoteAllSession(s: Seen, summaries: seq<Summary>)
    ensures NoteAll(s, summaries).progress.sessionId == s.progress.sessionId
  {
    if summaries != [] { NoteAllSession(s, summaries[..|summaries| - 1]); }
  }

  /** Of a stream of whole lines and a rest: every act of every line is logged, in order, as `Logs` says; the
      counters count them, the session is the last one named, and the rest is kept. */
  lemma {:induction false} StreamTells(s: Seen, lines: seq<string>, left: string, acts: seq<Act>,
                                       parse: string -> Option<Event>)
    requires TellsOf(s, acts) && Agrees(s) && '\n' !in left && forall line <- lines :: '\n' !in line
    ensures var (after, buffer) := Drain(s, Streamed(lines) + left, parse);
            && buffer == left && TellsOf(after, acts + LinesActs(lines, parse)) && Agrees(after)
            && after.progress.sessionId == SessionAfter(s.progress.sessionId, lines, parse)
    decreases |lines|
  {
    if lines == [] {
      NewlineIsFirst(left, "", 0);
      assert Streamed(lines) + left == left && acts + LinesActs(lines, parse) == acts;
    } else {
      var line, rest := lines[0], Streamed(lines[1..]) + left;
      assert line in lines;
      assert Streamed(lines) + left == line + ("\n" + rest);
      hide *;
      LineFirst(s, line, rest, parse);
      LineTells(s, line, acts, parse);
      var told := acts + LineActs(line, parse);
      StreamTells(OnRawLine(s, line, parse), lines[1..], left, told, parse);
      FirstActs(acts, s.progress.sessionId, lines, parse);
    }
  }

  lemma LineFirst(s: Seen, line: string, rest: string, parse: string -> Option<Event>)
    requires '\n' !in line
    ensures Drain(s, line + ("\n" + rest), parse) == Drain(OnRawLine(s, line, parse), rest, parse)
  {
    NewlineIsFirst(line, rest, 0);
    var text := line + ("\n" + rest);
    assert text[..|line|] == line && text[|line| + 1..] == rest;
    hide OnRawLine, Newline;
  }

  lemma FirstActs(acts: seq<Act>, session: Option<string>, lines: seq<string>, parse: string -> Option<Event>)
    requires lines != []
    ensures acts + LinesActs(lines, parse) == acts + LineActs(lines[0], parse) + LinesActs(lines[1..], parse)
    ensures SessionAfter(session, lines, parse)
         == SessionAfter(SessionAfter(session, [lines[0]], parse), lines[1..], parse)
  {
    assert [lines[0]][1..] == [];
    hide LineActs, Trim;
  }

  /** A new logger has seen nothing. */
  lemma NothingSeen()
    ensures TellsOf(NOTHING, []) && Agrees(NOTHING) && NOTHING.progress.sessionId == None
  {
  }

  // ---- the logger -------------------------------------------------------------------------------

  class StreamLogger {
    var lineBuffer: string
    var progress: Progress
    var toolNames: Names
    var log: seq<Summary>
    const parse: string -> Option<Event>

    ghost function State(): Seen
      reads this
    {
      Seen(progress, toolNames, log)
    }

    constructor (parse: string -> Option<Event>)
      ensures this.parse == parse && lineBuffer == "" && State() == NOTHING
    {
      this.parse := parse;
      lineBuffer, progress, toolNames, log := "", NOTHING.progress, map[], [];
    }

    method ProcessChunk(chunk: string)
      modifies this
      ensures (State(), lineBuffer) == Drain(old(State()), old(lineBuffer) + chunk, parse)
    {
      lineBuffer := lineBuffer + chunk;
      ghost var whole := Drain(State(), lineBuffer, parse);
      var newline := Newline(lineBuffer, 0);
      while newline.Some?
        invariant newline == Newline(lineBuffer, 0)
        invariant Drain(State(), lineBuffer, parse) == whole
        decreases |lineBuffer|
      {
        var line := Trim(lineBuffer[..newline.value]);
        lineBuffer := lineBuffer[newline.value + 1..];
        if line != "" {
          ProcessLine(line);
        }
        newline := Newline(lineBuffer, 0);
      }
    }

    method ProcessLine(line: string)
      modifies this`progress, this`toolNames, this`log
      ensures State() == OnLine(old(State()), line, parse)
    {
      var event := parse(line);
      if event.None? { return; }
      var (summaries, names) := Summarize(event.value, toolNames);
      toolNames := names;
      if summaries == [] { return; }
      if event.value.sessionId.Some? {
        progress := progress.(sessionId := event.value.sessionId);
      }
      ghost var before := State();
      for i := 0 to |summaries|
        invariant State() == NoteAll(before, summaries[..i])
      {
        assert summaries[..i + 1][..i] == summaries[..i];
        match summaries[i].count {
          case Started => progress := progress.(toolCallsStarted := progress.toolCallsStarted + 1);
          case Completed => progress := progress.(toolCallsCompleted := progress.toolCallsCompleted + 1);
          case Uncounted =>
        }
        progress := progress.(lastActivity := summaries[i].text);
        log := log + [summaries[i]];
      }
      assert summaries[..|summaries|] == summaries;
    }
  }
}
