/** The bounded assistant loop: provider rounds, tool calls, and the stream of events a client reads. */
module ChatLoop {
  import opened Common
  import opened Text

  // ---------- Model output ----------

  /** The "arguments" of a parsed object, falsy ones replaced by an empty object; `interfaceKey` is the text of
      its "interface_key", empty when absent. */
  datatype Arguments = Dict(interfaceKey: string) | NotADict

  /** A provider's text parsed as JSON; `kind` is its "type", empty when absent. */
  datatype Parsed =
    | NotObject
    | Object(kind: string, keys: set<string>, tool: string, arguments: Arguments, content: Option<string>)

  datatype Action =
    | Final(content: string)
    | InvalidInternal
    | ToolCall(tool: string, arguments: Arguments)

  /** _looks_like_internal_tool_envelope */
  predicate InternalEnvelope(p: Parsed) {
    && p.Object? && p.kind != "tool_call" && p.kind != "final"
    && ("tool_request" in p.keys || "interface_key" in p.keys || "arguments" in p.keys)
  }

  /** _action_from_model_output */
  function ActionOf(output: string, p: Parsed): Action {
    if p.NotObject? then Final(Strip(output))
    else if InternalEnvelope(p) then InvalidInternal
    else if p.kind == "tool_call" then ToolCall(p.tool, p.arguments)
    else Final(if p.content.Some? then Strip(p.content.value) else Strip(output))
  }

  datatype Check = Accepted | Rejected | Crashes

  const GATEWAY_TOOLS: set<string> := {"query_agent_interface", "mutate_agent_interface"}

  /** _validate_tool_action, then the reading of the arguments for tool_start: arguments that are no object
      crash unless the missing tool name is noticed first. */
  function CheckCall(tool: string, arguments: Arguments): Check {
    if Strip(tool) == "" then Rejected
    else if arguments.NotADict? then Crashes
    else if Strip(tool) in GATEWAY_TOOLS && Strip(arguments.interfaceKey) == "" then Rejected
    else Accepted
  }

  // ---------- Surroundings ----------

  datatype Reply = ProviderFails(error: string) | Output(text: string, parsed: Parsed)

  /** A tool ends well, with one of the errors the loop handles, or with any other exception. */
  datatype ToolOutcome = Succeeds | HandledError(error: string) | Breaks(error: string)

  /** What the loop adds to the planner's messages after a round. */
  datatype Note =
    | Context(role: string, content: string)
    | InvalidMetadata
    | InvalidCall(tool: string)
    | ToolResult(tool: string, round: nat)
    | ToolError(tool: string, error: string)

  datatype Env = Env(
    maxRounds: nat,
    chunkSize: nat,
    context: seq<Note>,
    provider: (nat, seq<Note>) -> Reply,
    execute: (nat, string, Arguments) -> ToolOutcome,
    storeError: Option<string>)

  /** _runtime_setting; None is a value that is no integer. */
  function RuntimeSetting(value: Option<int>, default: nat): (r: nat)
    requires default >= 1
    ensures r >= 1
    ensures value.None? ==> r == default
    ensures value.Some? ==> r >= value.value && (r == 1 || r == value.value)
  {
    if value.None? then default else if value.value < 1 then 1 else value.value
  }

  ghost predicate Configured(env: Env) {
    env.maxRounds >= 1 && env.chunkSize >= 1
  }

  datatype Event =
    | Conversation
    | ToolStart(tool: string)
    | ToolEnd(tool: string, ok: bool)
    | Content(delta: string)
    | Complete
    | Error(message: string)
    | Done

  const FALLBACK := "I could not complete the request within the allowed tool rounds. Please refine the question."

  // ---------- One round ----------

  datatype RoundResult =
    | Continue(events: seq<Event>, note: Note)
    | Stop(answer: string)
    | Crash(events: seq<Event>, error: string)

  function ToolRound(env: Env, round: nat, tool: string, arguments: Arguments): RoundResult {
    match CheckCall(tool, arguments)
    case Rejected => Continue([], InvalidCall(Strip(tool)))
    case Crashes => Crash([], "arguments")
    case Accepted =>
      var name := Strip(tool);
      match env.execute(round, name, arguments)
      case Succeeds => Continue([ToolStart(name), ToolEnd(name, true)], ToolResult(name, round))
      case HandledError(e) => Continue([ToolStart(name), ToolEnd(name, false)], ToolError(name, e))
      case Breaks(e) => Crash([ToolStart(name)], e)
  }

  function Round(env: Env, round: nat, working: seq<Note>): RoundResult {
    match env.provider(round, working)
    case ProviderFails(e) => Crash([], e)
    case Output(text, parsed) =>
      match ActionOf(text, parsed)
      case InvalidInternal => Continue([], InvalidMetadata)
      case ToolCall(tool, arguments) => ToolRound(env, round, tool, arguments)
      case Final(content) => Stop(if content != "" then content else Strip(text))
  }

  /** The tool call a provider's reply makes, if it makes a valid one: a named tool, arguments that are an object, and
      an interface for the two gateway tools. */
  predicate Calls(reply: Reply) {
    && reply.Output? && reply.parsed.Object? && reply.parsed.kind == "tool_call"
    && Strip(reply.parsed.tool) != "" && reply.parsed.arguments.Dict?
    && (Strip(reply.parsed.tool) == "query_agent_interface" || Strip(reply.parsed.tool) == "mutate_agent_interface" ==>
          Strip(reply.parsed.arguments.interfaceKey) != "")
  }

  /** The reply is an answer: no object, or an object that is no tool call and none of its keys belongs to one. */
  predicate Answers(reply: Reply) {
    reply.Output? &&
    (reply.parsed.Object? ==>
       && reply.parsed.kind != "tool_call"
       && (reply.parsed.kind == "final" || reply.parsed.keys !! {"tool_request", "interface_key", "arguments"}))
  }

  /** The text of an answer: the object's content, or all the provider wrote when there is none. */
  function AnswerOf(reply: Reply): string
    requires reply.Output?
  {
    if reply.parsed.Object? && reply.parsed.content.Some? && Strip(reply.parsed.content.value) != ""
    then Strip(reply.parsed.content.value) else Strip(reply.text)
  }

  /** What one round does, by what the provider replied and how the tool ended: the client is told of a valid call and
      whether it succeeded, the planner of its result or error, or of what was wrong with the reply. */
  lemma RoundIs(env: Env, round: nat, working: seq<Note>)
    ensures var reply, r := env.provider(round, working), Round(env, round, working);
            && (reply.ProviderFails? ==> r == Crash([], reply.error))
            && (Answers(reply) ==> r == Stop(AnswerOf(reply)))
            && (Calls(reply) ==>
                  var name := Strip(reply.parsed.tool);
                  match env.execute(round, name, reply.parsed.arguments)
                  case Succeeds => r == Continue([ToolStart(name), ToolEnd(name, true)], ToolResult(name, round))
                  case HandledError(e) => r == Continue([ToolStart(name), ToolEnd(name, false)], ToolError(name, e))
                  case Breaks(e) => r == Crash([ToolStart(name)], e))
            && (reply.Output? && !Answers(reply) && !Calls(reply) ==>
                  r == if reply.parsed.kind != "tool_call" then Continue([], InvalidMetadata)
                       else if Strip(reply.parsed.tool) != "" && reply.parsed.arguments.NotADict?
                       then Crash([], "arguments")
                       else Continue([], InvalidCall(Strip(reply.parsed.tool))))
  {
    hide Strip;
    StripOfEmpty();
  }

  // ---------- The whole run ----------

  datatype Ending = Answer(text: string) | Exhausted | Crashed(error: string)

  datatype Progress = Progress(events: seq<Event>, calls: nat, ending: Ending)

  function Rounds(env: Env, i: nat, working: seq<Note>): (p: Progress)
    requires i <= env.maxRounds
    decreases env.maxRounds - i
  {
    if i == env.maxRounds then Progress([], 0, Exhausted)
    else
      match Round(env, i, working)
      case Stop(answer) => Progress([], 1, Answer(answer))
      case Crash(events, error) => Progress(events, 1, Crashed(error))
      case Continue(events, note) =>
        var rest := Rounds(env, i + 1, working + [note]);
        Progress(events + rest.events, 1 + rest.calls, rest.ending)
  }

  function Run(env: Env): Progress {
    Rounds(env, 0, env.context)
  }

  /** The text to store and stream, unless a round crashed. */
  function AnswerText(ending: Ending): string
    requires !ending.Crashed?
  {
    if ending.Answer? && ending.text != "" then ending.text else FALLBACK
  }

  /** The assistant message the run stores, if it stores one. */
  function Stored(env: Env): Option<string> {
    var ending := Run(env).ending;
    if ending.Crashed? || env.storeError.Some? then None else Some(AnswerText(ending))
  }

  /** _chunk_text */
  function Chunks(text: string, size: nat): seq<string>
    requires size >= 1
  {
    if |text| <= size then if text == "" then [] else [text]
    else [text[..size]] + Chunks(text[size..], size)
  }

  function Contents(chunks: seq<string>): (r: seq<Event>)
    ensures |r| == |chunks| && forall i | 0 <= i < |r| :: r[i] == Content(chunks[i])
  {
    seq(|chunks|, i requires 0 <= i < |chunks| => Content(chunks[i]))
  }

  /** What follows the tool events. */
  function Closing(env: Env): seq<Event>
    requires Configured(env)
  {
    var ending := Run(env).ending;
    if ending.Crashed? then [Error(ending.error)]
    else if env.storeError.Some? then [Error(env.storeError.value)]
    else Contents(Chunks(AnswerText(ending), env.chunkSize)) + [Complete]
  }

  function Transcript(env: Env): seq<Event>
    requires Configured(env)
  {
    [Conversation] + Run(env).events + Closing(env) + [Done]
  }

  // ---------- The grammar ----------

  /** States of a reader that checks a stream one event at a time. */
  datatype Reader = Start | Ready | InTool(tool: string) | Speaking | Completed | Failed | Closed | Rejecting

  function Next(g: Reader, e: Event): Reader {
    match (g, e)
    case (Start, Conversation) => Ready
    case (Ready, ToolStart(t)) => InTool(t)
    case (InTool(t), ToolEnd(u, _)) => if t == u then Ready else Rejecting
    case (Ready, Content(d)) => if d != "" then Speaking else Rejecting
    case (Speaking, Content(d)) => if d != "" then Speaking else Rejecting
    case (Speaking, Complete) => Completed
    case (Ready, Error(_)) => Failed
    case (InTool(_), Error(_)) => Failed
    case (Completed, Done) => Closed
    case (Failed, Done) => Closed
    case _ => Rejecting
  }

  function After(g: Reader, events: seq<Event>): Reader
    decreases |events|
  {
    if events == [] then g else After(Next(g, events[0]), events[1..])
  }

  lemma {:induction false} AfterConcat(g: Reader, a: seq<Event>, b: seq<Event>)
    ensures After(g, a + b) == After(After(g, a), b)
    decreases |a|
  {
    if a == [] {
      assert a + b == b;
    } else {
      assert (a + b)[1..] == a[1..] + b;
      AfterConcat(Next(g, a[0]), a[1..], b);
    }
  }

  lemma AfterOne(g: Reader, e: Event)
    ensures After(g, [e]) == Next(g, e)
  {
    assert [e][1..] == [];
  }

  lemma RoundGrammar(env: Env, round: nat, working: seq<Note>)
    ensures var r := Round(env, round, working);
            && (r.Continue? ==> After(Ready, r.events) == Ready)
            && (r.Crash? ==> After(Ready, r.events) == Ready || After(Ready, r.events).InTool?)
  {
    var r := Round(env, round, working);
    if r.Continue? && r.events != [] {
      assert r.events[1..] == [r.events[1]];
      AfterOne(InTool(r.events[0].tool), r.events[1]);
    }
    if r.Crash? && r.events != [] {
      AfterOne(Ready, r.events[0]);
    }
  }

  lemma {:induction false} RoundsGrammar(env: Env, i: nat, working: seq<Note>)
    requires i <= env.maxRounds
    ensures var p := Rounds(env, i, working);
            After(Ready, p.events) == Ready || (p.ending.Crashed? && After(Ready, p.events).InTool?)
    decreases env.maxRounds - i
  {
    if i < env.maxRounds {
      RoundGrammar(env, i, working);
      var r := Round(env, i, working);
      hide Round, After;
      if r.Continue? {
        RoundsGrammar(env, i + 1, working + [r.note]);
        AfterConcat(Ready, r.events, Rounds(env, i + 1, working + [r.note]).events);
      }
    }
    assert After(Ready, []) == Ready;
  }

  lemma {:induction false} ContentsGrammar(g: Reader, chunks: seq<string>)
    requires (g == Ready && chunks != []) || g == Speaking
    requires forall i | 0 <= i < |chunks| :: chunks[i] != ""
    ensures After(g, Contents(chunks)) == Speaking
    decreases |chunks|
  {
    if chunks != [] {
      assert Contents(chunks)[1..] == Contents(chunks[1..]);
      ContentsGrammar(Speaking, chunks[1..]);
    }
  }

  /** Text joined from pieces. */
  function Joined(pieces: seq<string>): string {
    if pieces == [] then "" else pieces[0] + Joined(pieces[1..])
  }

  /** Chunking loses nothing, and every chunk has between one and `size` characters. */
  lemma {:induction false} ChunksOfText(text: string, size: nat)
    requires size >= 1
    ensures Joined(Chunks(text, size)) == text
    ensures forall i | 0 <= i < |Chunks(text, size)| :: 1 <= |Chunks(text, size)[i]| <= size
    ensures text != "" ==> Chunks(text, size) != []
    decreases |text|
  {
    if |text| > size {
      ChunksOfText(text[size..], size);
      assert text == text[..size] + text[size..];
      assert Chunks(text, size)[1..] == Chunks(text[size..], size);
    } else if text != "" {
      assert [text][1..] == [];
      assert Joined([text]) == text + Joined([]);
    }
  }

  lemma FallbackIsText(ending: Ending)
    requires !ending.Crashed?
    ensures AnswerText(ending) != ""
  {
  }

  lemma StreamedGrammar(text: string, size: nat)
    requires text != "" && size >= 1
    ensures After(Ready, Contents(Chunks(text, size)) + [Complete]) == Completed
  {
    hide After, Chunks, Contents;
    var chunks := Chunks(text, size);
    ChunksOfText(text, size);
    ContentsGrammar(Ready, chunks);
    AfterConcat(Ready, Contents(chunks), [Complete]);
    AfterOne(Speaking, Complete);
  }

  lemma ClosingGrammar(env: Env, g: Reader)
    requires Configured(env) && (g == Ready || (Run(env).ending.Crashed? && g.InTool?))
    ensures After(g, Closing(env)) == if Stored(env).Some? then Completed else Failed
  {
    hide Run, After, Chunks, Contents, AnswerText;
    var ending := Run(env).ending;
    if Stored(env).Some? {
      FallbackIsText(ending);
      StreamedGrammar(AnswerText(ending), env.chunkSize);
    } else {
      AfterOne(g, Closing(env)[0]);
    }
  }

  /** Every finished run streams a well-formed transcript: conversation, matched tool pairs, then non-empty
      content and complete, or error, then done. */
  lemma TranscriptIsWellFormed(env: Env)
    requires Configured(env)
    ensures After(Start, Transcript(env)) == Closed
  {
    var tools, closing := Run(env).events, Closing(env);
    RoundsGrammar(env, 0, env.context);
    ClosingGrammar(env, After(Ready, tools));
    AfterOne(Start, Conversation);
    hide After, Closing;
    AfterConcat(Start, [Conversation] + tools + closing, [Done]);
    AfterConcat(Start, [Conversation] + tools, closing);
    AfterConcat(Start, [Conversation], tools);
    AfterOne(Completed, Done);
    AfterOne(Failed, Done);
  }

  // ---------- What well-formedness means ----------

  ghost predicate Dead(g: Reader) {
    g.Closed? || g.Rejecting?
  }

  lemma {:induction false} DeadStays(g: Reader, events: seq<Event>)
    requires Dead(g) && events != []
    ensures After(g, events) == Rejecting
    decreases |events|
  {
    if |events| > 1 {
      DeadStays(Next(g, events[0]), events[1..]);
    } else {
      assert events[1..] == [];
    }
  }

  function CountOf(events: seq<Event>, wanted: Event -> bool): nat {
    if events == [] then 0 else (if wanted(events[0]) then 1 else 0) + CountOf(events[1..], wanted)
  }

  predicate IsDone(e: Event) {
    e.Done?
  }

  predicate IsStart(e: Event) {
    e.ToolStart?
  }

  predicate IsComplete(e: Event) {
    e.Complete?
  }

  predicate Concludes(e: Event) {
    e.Complete? || e.Error?
  }

  predicate Concluded(g: Reader) {
    g.Completed? || g.Failed?
  }

  /** A well-formed stream, read from any state on, has exactly one done, at its end, and exactly one complete or
      error, right before it, unless that one was read already. */
  lemma {:induction false} ClosedStreams(g: Reader, events: seq<Event>)
    requires After(g, events) == Closed && !Dead(g)
    ensures events != [] && events[|events| - 1] == Done && CountOf(events, IsDone) == 1
    ensures CountOf(events, Concludes) == if Concluded(g) then 0 else 1
    ensures if Concluded(g) then |events| == 1 else |events| >= 2 && Concludes(events[|events| - 2])
    decreases |events|
  {
    if events != [] {
      var h := Next(g, events[0]);
      if Dead(h) {
        if |events| > 1 {
          DeadStays(h, events[1..]);
        }
        assert h == Closed ==> events[1..] == [];
      } else {
        ClosedStreams(h, events[1..]);
      }
    }
  }

  // ---------- Accounting ----------

  lemma {:induction false} CountConcat(a: seq<Event>, b: seq<Event>, wanted: Event -> bool)
    ensures CountOf(a + b, wanted) == CountOf(a, wanted) + CountOf(b, wanted)
  {
    if a == [] {
      assert a + b == b;
    } else {
      assert (a + b)[1..] == a[1..] + b;
      CountConcat(a[1..], b, wanted);
    }
  }

  /** What a client that appends every content event has read. */
  function Deltas(events: seq<Event>): string {
    if events == [] then ""
    else (if events[0].Content? then events[0].delta else "") + Deltas(events[1..])
  }

  lemma {:induction false} DeltasConcat(a: seq<Event>, b: seq<Event>)
    ensures Deltas(a + b) == Deltas(a) + Deltas(b)
  {
    if a == [] {
      assert a + b == b;
    } else {
      assert (a + b)[1..] == a[1..] + b;
      DeltasConcat(a[1..], b);
    }
  }

  lemma {:induction false} ContentsDeltas(chunks: seq<string>)
    ensures Deltas(Contents(chunks)) == Joined(chunks)
    ensures CountOf(Contents(chunks), IsStart) == CountOf(Contents(chunks), IsComplete) == 0
  {
    if chunks != [] {
      assert Contents(chunks)[1..] == Contents(chunks[1..]);
      ContentsDeltas(chunks[1..]);
    }
  }

  lemma RoundAccount(env: Env, round: nat, working: seq<Note>)
    ensures var r := Round(env, round, working);
            !r.Stop? ==> CountOf(r.events, IsStart) <= 1 && CountOf(r.events, IsComplete) == 0 && Deltas(r.events) == ""
  {
    var r := Round(env, round, working);
    if !r.Stop? && |r.events| > 0 {
      assert CountOf([r.events[0]], IsStart) == 1 && CountOf([r.events[0]], IsComplete) == 0
             && Deltas([r.events[0]]) == "";
      if |r.events| == 2 {
        assert CountOf([r.events[1]], IsStart) == 0 && CountOf([r.events[1]], IsComplete) == 0
               && Deltas([r.events[1]]) == "";
        assert r.events == [r.events[0]] + [r.events[1]];
        CountConcat([r.events[0]], [r.events[1]], IsStart);
        CountConcat([r.events[0]], [r.events[1]], IsComplete);
        DeltasConcat([r.events[0]], [r.events[1]]);
      } else {
        assert r.events == [r.events[0]];
      }
    }
  }

  lemma {:induction false} RoundsAccount(env: Env, i: nat, working: seq<Note>)
    requires i <= env.maxRounds
    ensures var p := Rounds(env, i, working);
            && CountOf(p.events, IsStart) <= p.calls <= env.maxRounds - i
            && CountOf(p.events, IsComplete) == 0 && Deltas(p.events) == ""
    decreases env.maxRounds - i
  {
    if i < env.maxRounds {
      RoundAccount(env, i, working);
      var r := Round(env, i, working);
      if r.Continue? {
        RoundsAccount(env, i + 1, working + [r.note]);
        var rest := Rounds(env, i + 1, working + [r.note]).events;
        hide Round;
        CountConcat(r.events, rest, IsStart);
        CountConcat(r.events, rest, IsComplete);
        DeltasConcat(r.events, rest);
      }
    }
  }

  lemma ClosingAccount(env: Env)
    requires Configured(env)
    ensures CountOf(Closing(env), IsStart) == 0
    ensures CountOf(Closing(env), IsComplete) == if Stored(env).Some? then 1 else 0
    ensures Deltas(Closing(env)) == if Stored(env).Some? then Stored(env).value else ""
  {
    var ending := Run(env).ending;
    hide Run;
    if Stored(env).Some? {
      var chunks := Chunks(AnswerText(ending), env.chunkSize);
      ChunksOfText(AnswerText(ending), env.chunkSize);
      ContentsDeltas(chunks);
      CountConcat(Contents(chunks), [Complete], IsStart);
      CountConcat(Contents(chunks), [Complete], IsComplete);
      DeltasConcat(Contents(chunks), [Complete]);
      assert [Complete][1..] == [];
    } else {
      assert Closing(env)[1..] == [];
    }
  }

  /** Tool starts and provider calls stay within the rounds, complete appears exactly when the assistant message
      was stored, and the content deltas are that message. */
  lemma TranscriptAccount(env: Env)
    requires Configured(env)
    ensures CountOf(Transcript(env), IsStart) <= Run(env).calls <= env.maxRounds
    ensures CountOf(Transcript(env), IsComplete) == if Stored(env).Some? then 1 else 0
    ensures Deltas(Transcript(env)) == if Stored(env).Some? then Stored(env).value else ""
  {
    hide Closing, Rounds, Stored, CountOf, Deltas;
    var tools, closing := Run(env).events, Closing(env);
    RoundsAccount(env, 0, env.context);
    ClosingAccount(env);
    SilentEnds();
    forall wanted: Event -> bool
      ensures CountOf(Transcript(env), wanted) ==
              CountOf([Conversation], wanted) + CountOf(tools, wanted) + CountOf(closing, wanted)
              + CountOf([Done], wanted)
    {
      CountConcat([Conversation] + tools + closing, [Done], wanted);
      CountConcat([Conversation] + tools, closing, wanted);
      CountConcat([Conversation], tools, wanted);
    }
    DeltasConcat([Conversation] + tools + closing, [Done]);
    DeltasConcat([Conversation] + tools, closing);
    DeltasConcat([Conversation], tools);
  }

  lemma SilentEnds()
    ensures CountOf([Conversation], IsStart) == CountOf([Conversation], IsComplete) == 0 && Deltas([Conversation]) == ""
    ensures CountOf([Done], IsStart) == CountOf([Done], IsComplete) == 0 && Deltas([Done]) == ""
  {
    assert [Conversation][1..] == [] && [Done][1..] == [];
  }

  // ---------- What a client learns of the tools ----------

  /** The ends of tool calls a stream reports, with whether they succeeded. */
  function Ends(events: seq<Event>): seq<(string, bool)> {
    if events == [] then []
    else (if events[0].ToolEnd? then [(events[0].tool, events[0].ok)] else []) + Ends(events[1..])
  }

  /** The tool call of round k that was answered, if the round was reached and made one. */
  ghost function EndAt(env: Env, k: nat): seq<(string, bool)> {
    if WorkingAt(env, k).None? then []
    else
      var reply := env.provider(k, WorkingAt(env, k).value);
      if !Calls(reply) then []
      else
        var name := Strip(reply.parsed.tool);
        var outcome := env.execute(k, name, reply.parsed.arguments);
        if outcome.Breaks? then [] else [(name, outcome.Succeeds?)]
  }

  /** The answered tool calls of rounds k and after. */
  ghost function EndsFrom(env: Env, k: nat): seq<(string, bool)>
    decreases env.maxRounds - k
  {
    if k >= env.maxRounds then [] else EndAt(env, k) + EndsFrom(env, k + 1)
  }

  lemma {:induction false} EndsConcat(a: seq<Event>, b: seq<Event>)
    ensures Ends(a + b) == Ends(a) + Ends(b)
  {
    if a == [] {
      assert a + b == b;
    } else {
      assert (a + b)[1..] == a[1..] + b;
      EndsConcat(a[1..], b);
    }
  }

  lemma RoundEnds(env: Env, k: nat)
    requires WorkingAt(env, k).Some?
    ensures var r := Round(env, k, WorkingAt(env, k).value);
            if r.Stop? then EndAt(env, k) == [] else Ends(r.events) == EndAt(env, k)
  {
    var w := WorkingAt(env, k).value;
    var r := Round(env, k, w);
    RoundIs(env, k, w);
    RoundKinds(env.provider(k, w));
    hide Round, WorkingAt, Strip, Answers, Calls;
    NoEvents();
    if !r.Stop? && |r.events| == 2 {
      PairEnds(r.events[0], r.events[1]);
      assert r.events == [r.events[0], r.events[1]];
    } else if !r.Stop? && |r.events| == 1 {
      assert r.events[1..] == [];
    }
  }

  lemma PairEnds(a: Event, b: Event)
    ensures Ends([a, b]) ==
            (if a.ToolEnd? then [(a.tool, a.ok)] else []) + (if b.ToolEnd? then [(b.tool, b.ok)] else [])
  {
    assert [a, b][1..] == [b] && [b][1..] == [];
    assert Ends([b]) == (if b.ToolEnd? then [(b.tool, b.ok)] else []) + Ends([]);
  }

  lemma RoundKinds(reply: Reply)
    ensures !(Answers(reply) && Calls(reply)) && !(reply.ProviderFails? && (Answers(reply) || Calls(reply)))
  {
  }

  /** Rounds after one that did not ask for another are not reached. */
  lemma {:induction false} NoEndsFrom(env: Env, k: nat)
    requires WorkingAt(env, k).None?
    ensures EndsFrom(env, k) == []
    decreases env.maxRounds - k
  {
    if k < env.maxRounds {
      assert WorkingAt(env, k + 1).None?;
      NoEndsFrom(env, k + 1);
    }
  }

  lemma {:induction false} RoundsEnds(env: Env, k: nat)
    requires k <= env.maxRounds && WorkingAt(env, k).Some?
    ensures Ends(Rounds(env, k, WorkingAt(env, k).value).events) == EndsFrom(env, k)
    decreases env.maxRounds - k
  {
    if k < env.maxRounds {
      var w := WorkingAt(env, k).value;
      var r := Round(env, k, w);
      RoundEnds(env, k);
      hide Round, EndAt, Ends;
      if r.Continue? {
        assert WorkingAt(env, k + 1) == Some(w + [r.note]);
        RoundsEnds(env, k + 1);
        EndsConcat(r.events, Rounds(env, k + 1, w + [r.note]).events);
      } else {
        assert WorkingAt(env, k + 1).None?;
        NoEndsFrom(env, k + 1);
        NoEvents();
      }
    }
  }

  lemma NoEvents()
    ensures Ends([]) == []
  {
  }

  lemma {:induction false} ContentsEnds(chunks: seq<string>)
    ensures Ends(Contents(chunks)) == []
  {
    if chunks != [] {
      assert Contents(chunks)[1..] == Contents(chunks[1..]);
      ContentsEnds(chunks[1..]);
    }
  }

  lemma ClosingEnds(env: Env)
    requires Configured(env)
    ensures Ends(Closing(env)) == []
  {
    var ending := Run(env).ending;
    hide Run, Chunks;
    if !ending.Crashed? && env.storeError.None? {
      var chunks := Chunks(AnswerText(ending), env.chunkSize);
      ContentsEnds(chunks);
      EndsConcat(Contents(chunks), [Complete]);
      assert [Complete][1..] == [];
    } else {
      assert Closing(env)[1..] == [];
    }
  }

  /** The tool ends in a stream are those of the reached rounds' calls, in order, each with whether it succeeded. */
  lemma TranscriptEnds(env: Env)
    requires Configured(env)
    ensures Ends(Transcript(env)) == EndsFrom(env, 0)
  {
    var tools, closing := Run(env).events, Closing(env);
    assert WorkingAt(env, 0) == Some(env.context);
    RoundsEnds(env, 0);
    ClosingEnds(env);
    assert [Conversation][1..] == [] && [Done][1..] == [];
    assert Ends([Conversation]) == [] && Ends([Done]) == [];
    hide Closing, Ends, EndsFrom, Rounds;
    EndsConcat([Conversation] + tools + closing, [Done]);
    EndsConcat([Conversation] + tools, closing);
    EndsConcat([Conversation], tools);
  }

  // ---------- Which round answers ----------

  /** The planner's messages once the first `k` rounds have all asked for another; None when one did not. */
  ghost function WorkingAt(env: Env, k: nat): Option<seq<Note>> {
    if k == 0 then Some(env.context)
    else
      var w := WorkingAt(env, k - 1);
      if w.None? then None
      else
        var r := Round(env, k - 1, w.value);
        if r.Continue? then Some(w.value + [r.note]) else None
  }

  /** Every earlier round asked for another and this one stopped with an answer. */
  ghost predicate AnswersAt(env: Env, k: nat, answer: string) {
    WorkingAt(env, k).Some? && Round(env, k, WorkingAt(env, k).value) == Stop(answer)
  }

  lemma {:induction false} RoundsFrom(env: Env, k: nat)
    requires k <= env.maxRounds && WorkingAt(env, k).Some?
    ensures Run(env).ending == Rounds(env, k, WorkingAt(env, k).value).ending
    ensures Run(env).calls == k + Rounds(env, k, WorkingAt(env, k).value).calls
  {
    hide Round;
    if k > 0 {
      RoundsFrom(env, k - 1);
    }
  }

  lemma {:induction false} EndingRound(env: Env, k: nat)
    requires k <= env.maxRounds && WorkingAt(env, k).Some?
    ensures var p := Rounds(env, k, WorkingAt(env, k).value);
            && (p.ending.Answer? ==>
                  1 <= p.calls <= env.maxRounds - k && AnswersAt(env, k + p.calls - 1, p.ending.text))
            && (p.ending.Exhausted? ==> p.calls == env.maxRounds - k && WorkingAt(env, env.maxRounds).Some?)
    decreases env.maxRounds - k
  {
    hide Round;
    if k < env.maxRounds {
      var w := WorkingAt(env, k).value;
      var r := Round(env, k, w);
      if r.Continue? {
        assert WorkingAt(env, k + 1) == Some(w + [r.note]);
        EndingRound(env, k + 1);
      }
    }
  }

  /** The run ends with an answer exactly when some round, all before it having asked for another, gives it, and
      that round's is the last provider call. The rounds run out exactly when all of them ask for another. */
  lemma FirstFinalRoundAnswers(env: Env)
    ensures forall answer ::
              Run(env).ending == Answer(answer) <==> exists k: nat :: k < env.maxRounds && AnswersAt(env, k, answer)
    ensures forall k: nat, answer | k < env.maxRounds && AnswersAt(env, k, answer) :: Run(env).calls == k + 1
    ensures Run(env).ending.Exhausted? <==> WorkingAt(env, env.maxRounds).Some?
  {
    EndingRound(env, 0);
    forall k: nat, answer | k < env.maxRounds && AnswersAt(env, k, answer)
      ensures Run(env).ending == Answer(answer) && Run(env).calls == k + 1
    {
      RoundsFrom(env, k);
    }
    if WorkingAt(env, env.maxRounds).Some? {
      RoundsFrom(env, env.maxRounds);
    }
    hide Run, AnswersAt, WorkingAt;
  }

  /** No blank text parses to an object. */
  ghost predicate Sensible(r: Reply) {
    r.Output? && Strip(r.text) == "" ==> r.parsed.NotObject?
  }

  /** A round's answer is empty exactly when the provider returned blank text: empty "content" shows the raw output. */
  lemma BlankTextIff(env: Env, round: nat, working: seq<Note>)
    requires Sensible(env.provider(round, working))
    ensures var reply := env.provider(round, working);
            Round(env, round, working) == Stop("") <==> reply.Output? && Strip(reply.text) == ""
  {
    StripOfEmpty();
    hide Strip;
  }

  lemma StripOfEmpty()
    ensures Strip("") == ""
  {
  }

  ghost predicate AllSensible(env: Env) {
    forall round, working :: Sensible(env.provider(round, working))
  }

  /** Round k is reached and the provider answers it with blank text. */
  ghost predicate BlankAt(env: Env, k: nat) {
    && WorkingAt(env, k).Some?
    && env.provider(k, WorkingAt(env, k).value).Output?
    && Strip(env.provider(k, WorkingAt(env, k).value).text) == ""
  }

  /** The run has no answer of its own. */
  predicate NoAnswer(ending: Ending) {
    ending.Exhausted? || ending == Answer("")
  }

  /** The fallback sentence stands in for an answer exactly when every round asked for another one or the provider
      answered some reached round with blank text; in every other run that answers, the stored message is the
      answer itself. */
  lemma FallbackIff(env: Env)
    requires AllSensible(env)
    ensures NoAnswer(Run(env).ending) <==>
            WorkingAt(env, env.maxRounds).Some? || exists k: nat :: k < env.maxRounds && BlankAt(env, k)
    ensures Stored(env).Some? && !NoAnswer(Run(env).ending) ==>
              exists k: nat :: k < env.maxRounds && AnswersAt(env, k, Stored(env).value)
  {
    FirstFinalRoundAnswers(env);
    forall k: nat ensures AnswersAt(env, k, "") <==> BlankAt(env, k) {
      if WorkingAt(env, k).Some? {
        assert Sensible(env.provider(k, WorkingAt(env, k).value));
        BlankTextIff(env, k, WorkingAt(env, k).value);
      }
    }
    hide Run, AnswersAt, BlankAt, WorkingAt, AllSensible;
  }

  // ---------- The service ----------

  class AIService {
    var assistant: seq<string>

    constructor ()
      ensures assistant == []
    {
      assistant := [];
    }

    /** The generator of stream_chat, run to completion. */
    method Generate(env: Env) returns (events: seq<Event>, calls: nat)
      requires Configured(env)
      modifies this
      ensures events == Transcript(env)
      ensures calls == Run(env).calls
      ensures assistant == old(assistant) + if Stored(env).Some? then [Stored(env).value] else []
    {
      hide Round, Rounds, Run, Chunks, Contents, Transcript, Closing, Stored, AnswerText;
      RunIs(env);
      RunStreams(env);
      events, calls := [Conversation], 0;
      var working, answer, round := env.context, "", 0;
      ghost var tools: seq<Event> := [];
      while round < env.maxRounds
        invariant round <= env.maxRounds && calls == round && answer == "" && assistant == old(assistant)
        invariant events == [Conversation] + tools
        invariant Run(env).events == tools + Rounds(env, round, working).events
        invariant Run(env).ending == Rounds(env, round, working).ending
        invariant Run(env).calls == round + Rounds(env, round, working).calls
      {
        calls := calls + 1;
        var r := Round(env, round, working);
        RoundsNext(env, round, working);
        match r {
          case Crash(produced, error) =>
            events := events + produced + [Error(error)] + [Done];
            assert events == [Conversation] + (tools + produced) + [Error(error)] + [Done];
            return;
          case Stop(text) =>
            answer := text;
            break;
          case Continue(produced, note) =>
            Regroup(tools, produced, Rounds(env, round + 1, working + [note]).events);
            events := events + produced;
            tools := tools + produced;
            working := working + [note];
        }
        round := round + 1;
      }
      if round == env.maxRounds {
        RoundsOver(env, working);
      }
      assert Run(env).events == tools;
      AnswerTextIs(Run(env).ending);
      if answer == "" {
        answer := FALLBACK;
      }
      if env.storeError.Some? {
        events := events + [Error(env.storeError.value)] + [Done];
        return;
      }
      assistant := assistant + [answer];
      var deltas := ChunkText(answer, env.chunkSize);
      events := events + Contents(deltas) + [Complete] + [Done];
    }
  }

  lemma Regroup(a: seq<Event>, b: seq<Event>, c: seq<Event>)
    ensures a + (b + c) == (a + b) + c && [Conversation] + a + b == [Conversation] + (a + b)
  {
  }

  lemma RunIs(env: Env)
    ensures Run(env) == Rounds(env, 0, env.context)
  {
  }

  lemma AnswerTextIs(ending: Ending)
    ensures !ending.Crashed? ==>
              AnswerText(ending) == if ending.Answer? && ending.text != "" then ending.text else FALLBACK
  {
  }

  /** What a run streams and stores, by how its rounds end. */
  lemma RunStreams(env: Env)
    requires Configured(env)
    ensures var p, start := Run(env), [Conversation] + Run(env).events;
            && (p.ending.Crashed? ==>
                  Transcript(env) == start + [Error(p.ending.error)] + [Done] && Stored(env) == None)
            && (!p.ending.Crashed? && env.storeError.Some? ==>
                  Transcript(env) == start + [Error(env.storeError.value)] + [Done] && Stored(env) == None)
            && (!p.ending.Crashed? && env.storeError.None? ==>
                  && Stored(env) == Some(AnswerText(p.ending))
                  && Transcript(env) ==
                     start + Contents(Chunks(AnswerText(p.ending), env.chunkSize)) + [Complete] + [Done])
  {
    hide Run, Chunks, Contents, AnswerText;
    var p, start := Run(env), [Conversation] + Run(env).events;
    if !p.ending.Crashed? && env.storeError.None? {
      var deltas := Contents(Chunks(AnswerText(p.ending), env.chunkSize));
      assert start + (deltas + [Complete]) == start + deltas + [Complete];
    }
  }

  lemma RoundsNext(env: Env, i: nat, working: seq<Note>)
    requires i < env.maxRounds
    ensures var p, r := Rounds(env, i, working), Round(env, i, working);
            && (r.Stop? ==> p == Progress([], 1, Answer(r.answer)))
            && (r.Crash? ==> p == Progress(r.events, 1, Crashed(r.error)))
            && (r.Continue? ==>
                  var rest := Rounds(env, i + 1, working + [r.note]);
                  p == Progress(r.events + rest.events, 1 + rest.calls, rest.ending))
  {
    hide Round;
  }

  lemma RoundsOver(env: Env, working: seq<Note>)
    ensures Rounds(env, env.maxRounds, working) == Progress([], 0, Exhausted)
  {
  }

  /** The range loop of _chunk_text. */
  method ChunkText(text: string, size: nat) returns (chunks: seq<string>)
    requires size >= 1
    ensures chunks == Chunks(text, size)
  {
    chunks := [];
    var index := 0;
    while index < |text|
      invariant 0 <= index
      invariant index <= |text| ==> Chunks(text, size) == chunks + Chunks(text[index..], size)
      invariant index > |text| ==> Chunks(text, size) == chunks
    {
      var rest := text[index..];
      if index + size <= |text| {
        assert rest[..size] == text[index..index + size];
        assert rest[size..] == text[index + size..];
        assert |rest| <= size ==> rest == text[index..index + size] && text[index + size..] == "";
        chunks := chunks + [text[index..index + size]];
      } else {
        assert rest == text[index..|text|];
        chunks := chunks + [text[index..|text|]];
      }
      index := index + size;
    }
    assert index == |text| ==> text[index..] == "";
  }
}
