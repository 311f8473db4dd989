/** The chat endpoint: one user question goes to the agent, whose run is streamed in
    segments. Every required-action update in a segment is a call to one of the
    controller's tools; their outputs are submitted together and the next segment is the
    answer to that submission. The loop stops after the first segment with no required
    action, and the reply is the first content item of the thread's latest message.

    The agent runtime is a script: `script[k]` is the segment the stream yields after the
    k-th submission, and a segment past its end is empty. The other services (JSON parsing,
    the embedding model, the vector query, the thread's messages) are functions of a
    `ChatEnv`. */
module Chat {
  import opened Wrappers
  import opened Strings
  import opened Decimal
  import opened DBService

  // ---------------------------------------------------------------------------------------
  // Tool arguments: the parsed JSON document and the accessors the tools use.

  /** A JSON value; `JInt` is a number written as an integer literal, `JOtherNumber` one
      with a fraction or an exponent. */
  datatype Json = JNull | JBool(b: bool) | JInt(n: int) | JOtherNumber | JString(s: string)
                | JArray(items: seq<Json>) | JObject(props: map<string, Json>)

  /** The exceptions the controller's own code can raise, by kind. */
  datatype Fault =
    | MalformedJson        // `JsonDocument.Parse` on text that is not JSON
    | InvalidOperation     // an accessor on the wrong kind of value, `First()` on no messages
    | KeyNotFound(name: string)  // `GetProperty` of a missing property
    | Format               // `GetInt32` of a number an `int` cannot hold: out of range or not integral
    | ArgumentOutOfRange   // `ContentItems[0]` of a message without content

  /** `GetProperty(name)`. */
  function GetProperty(root: Json, name: string): (r: Result<Json, Fault>)
    ensures r.Success? <==> root.JObject? && name in root.props
    ensures r.Success? ==> r.value == root.props[name]
    ensures r.Failure? ==> r.error == (if root.JObject? then KeyNotFound(name) else InvalidOperation)
  {
    if !root.JObject? then Failure(InvalidOperation)
    else if name !in root.props then Failure(KeyNotFound(name))
    else Success(root.props[name])
  }

  /** `GetInt32()`: an integer literal that fits in an `int`. */
  function GetInt32(v: Json): (r: Result<int, Fault>)
    ensures r.Success? <==> v.JInt? && IsInt32(v.n)
    ensures r.Success? ==> r.value == v.n
    ensures r.Failure? ==> r.error == (if v.JInt? || v.JOtherNumber? then Format else InvalidOperation)
  {
    if !v.JInt? && !v.JOtherNumber? then Failure(InvalidOperation)
    else if v.JInt? && IsInt32(v.n) then Success(v.n)
    else Failure(Format)
  }

  /** `GetString()`: `None` stands for the `null` it returns on a JSON `null`. */
  function GetString(v: Json): (r: Result<Option<string>, Fault>)
    ensures r.Success? <==> v.JString? || v.JNull?
    ensures r.Success? ==> r.value == (if v.JString? then Some(v.s) else None)
    ensures r.Failure? ==> r.error == InvalidOperation
  {
    match v
    case JString(s) => Success(Some(s))
    case JNull => Success(None)
    case _ => Failure(InvalidOperation)
  }

  // ---------------------------------------------------------------------------------------
  // The tools.

  const CalculateAgeInDogYearsName: string := "calculateAgeInDogYears"
  const RequestMoreInformationName: string := "requestMoreInformationFromSiteContext"

  datatype ToolCall = ToolCall(toolCallId: string, functionName: string,
                               functionArguments: string)

  datatype ToolOutput = ToolOutput(toolCallId: string, output: string)

  datatype MessageContent = MessageTextContent(text: string) | OtherContent

  datatype ThreadMessage = ThreadMessage(id: string, contentItems: seq<MessageContent>)

  datatype ThreadRun = ThreadRun(id: string)

  /** The services the controller calls: `parse` is `JsonDocument.Parse`, `embed` the
      embedding model, `query` the vector store, `newThreadId` the id of a thread the agent
      service creates, `messages(thread, run)` the thread's messages newest first, and
      `describe` the text of an exception. */
  datatype ChatEnv = ChatEnv(parse: string -> Option<Json>, embed: string -> seq<real>,
                             query: QueryRunner, newThreadId: string,
                             messages: (string, Option<string>) -> seq<ThreadMessage>,
                             describe: Fault -> string)

  /** `CalculateAgeInDogYears(humanYears)`: `humanYears * 10` in unchecked `int`
      arithmetic. */
  function CalculateAgeInDogYears(humanYears: int): (r: int)
    requires IsInt32(humanYears)
    ensures IsInt32(r)
    ensures (r - 10 * humanYears) % TwoTo32 == 0
    ensures -214748364 <= humanYears <= 214748364 ==> r == 10 * humanYears
  {
    Wrap32(humanYears * 10)
  }

  /** Past 214748364 human years the product wraps to a negative age. */
  lemma DogYearsWrapAround()
    ensures CalculateAgeInDogYears(214748365) == -2147483646
  {
    assert 214748365 * 10 - TwoTo32 == -2147483646;
  }

  /** The retrieval results for a question: the entries of the five nearest stored chunks
      to its embedding. */
  function Retrieved(env: ChatEnv, question: string): seq<string>
  {
    Entries(Flatten(env.query(NearestQuery(env.embed(question), DefaultTopN))))
  }

  /** What `RequestMoreInformationFromSiteContext(question)` answers: nothing for a null or
      empty question, else the retrieval results joined with commas. */
  function MoreInformation(env: ChatEnv, question: Option<string>): string
  {
    if question.None? || question.value == [] then [] else Join(",", Retrieved(env, question.value))
  }

  /** `RequestMoreInformationFromSiteContext(question)`. */
  method RequestMoreInformationFromSiteContext(env: ChatEnv, question: Option<string>)
    returns (context: string)
    ensures context == MoreInformation(env, question)
  {
    if question.None? || question.value == [] {
      return [];
    }
    var qEmbedding := env.embed(question.value);
    var results := GetNNearestTexts(env.query, qEmbedding);
    context := Join(",", results);
  }

  /** The context lists the retrieval results in order: when none of them holds a comma,
      splitting it at the commas gives them back. */
  lemma MoreInformationSplits(env: ChatEnv, question: string)
    requires question != []
    requires Retrieved(env, question) != []
    requires forall k :: 0 <= k < |Retrieved(env, question)| ==> ',' !in Retrieved(env, question)[k]
    ensures SplitOn(MoreInformation(env, Some(question)), ',') == Retrieved(env, question)
  {
    SplitJoin(Retrieved(env, question), ',');
  }

  /** What `GetResolvedToolOutput` answers for one call: `None` is the `null` it returns
      for a function it does not know. */
  function ToolOutputFor(env: ChatEnv, call: ToolCall): Result<Option<ToolOutput>, Fault>
  {
    match env.parse(call.functionArguments)
    case None => Failure(MalformedJson)
    case Some(root) =>
      if call.functionName == CalculateAgeInDogYearsName then
        match GetProperty(root, "humanYears")
        case Failure(f) => Failure(f)
        case Success(v) =>
          match GetInt32(v)
          case Failure(f) => Failure(f)
          case Success(years) =>
            Success(Some(ToolOutput(call.toolCallId, DecimalString(CalculateAgeInDogYears(years)))))
      else if call.functionName == RequestMoreInformationName then
        match GetProperty(root, "question")
        case Failure(f) => Failure(f)
        case Success(v) =>
          match GetString(v)
          case Failure(f) => Failure(f)
          case Success(q) => Success(Some(ToolOutput(call.toolCallId, MoreInformation(env, q))))
      else Success(None)
  }

  /** `GetResolvedToolOutput(functionName, toolCallId, functionArguments)`. */
  method GetResolvedToolOutput(env: ChatEnv, functionName: string, toolCallId: string,
                               functionArguments: string)
    returns (r: Result<Option<ToolOutput>, Fault>)
    ensures r == ToolOutputFor(env, ToolCall(toolCallId, functionName, functionArguments))
  {
    var argumentsJson := env.parse(functionArguments);
    if argumentsJson.None? {
      return Failure(MalformedJson);
    }
    var root := argumentsJson.value;
    if functionName == CalculateAgeInDogYearsName {
      var humanYears := GetProperty(root, "humanYears");
      if humanYears.Failure? {
        return Failure(humanYears.error);
      }
      var yearsArgument := GetInt32(humanYears.value);
      if yearsArgument.Failure? {
        return Failure(yearsArgument.error);
      }
      var age := CalculateAgeInDogYears(yearsArgument.value);
      return Success(Some(ToolOutput(toolCallId, DecimalString(age))));
    } else if functionName == RequestMoreInformationName {
      var question := GetProperty(root, "question");
      if question.Failure? {
        return Failure(question.error);
      }
      var questionArgument := GetString(question.value);
      if questionArgument.Failure? {
        return Failure(questionArgument.error);
      }
      var context := RequestMoreInformationFromSiteContext(env, questionArgument.value);
      return Success(Some(ToolOutput(toolCallId, context)));
    }
    return Success(None);
  }

  /** Dispatch is by exact function name, after the arguments are parsed: text that is not
      JSON fails every call, and any other name yields no output. Every output answers the
      call it was made for. */
  lemma DispatchByName(env: ChatEnv, call: ToolCall)
    ensures env.parse(call.functionArguments).None? <==> ToolOutputFor(env, call) == Failure(MalformedJson)
    ensures (call.functionName != CalculateAgeInDogYearsName &&
             call.functionName != RequestMoreInformationName &&
             env.parse(call.functionArguments).Some?) ==> ToolOutputFor(env, call) == Success(None)
    ensures var r := ToolOutputFor(env, call);
      r.Success? && r.value.Some? ==> r.value.value.toolCallId == call.toolCallId
    ensures ToolOutputFor(env, call) == Success(None) ==>
      call.functionName != CalculateAgeInDogYearsName && call.functionName != RequestMoreInformationName
  {
  }

  /** The dog-years tool on an `int` argument answers with the decimal text of ten times
      it, wrapped to 32 bits; the text reads back as that number. */
  lemma DogYearsOutput(env: ChatEnv, call: ToolCall, args: Json, humanYears: int)
    requires call.functionName == CalculateAgeInDogYearsName
    requires env.parse(call.functionArguments) == Some(args)
    requires GetProperty(args, "humanYears") == Success(JInt(humanYears))
    requires IsInt32(humanYears)
    ensures var r := ToolOutputFor(env, call);
      r.Success? && r.value.Some? && IsDecimalText(r.value.value.output) &&
      ParseDecimal(r.value.value.output) == CalculateAgeInDogYears(humanYears)
  {
    DecimalRoundTrip(CalculateAgeInDogYears(humanYears));
  }

  /** A null or empty question is answered with the empty string before any embedding or
      query; any other question, even one of white space only, is looked up. */
  lemma EmptyQuestion(env: ChatEnv, call: ToolCall, args: Json, question: Json)
    requires call.functionName == RequestMoreInformationName
    requires env.parse(call.functionArguments) == Some(args)
    requires GetProperty(args, "question") == Success(question)
    requires question.JNull? || question.JString?
    ensures var r := ToolOutputFor(env, call);
      r.Success? && r.value.Some? && r.value.value.toolCallId == call.toolCallId &&
      r.value.value.output ==
        (if question.JNull? || question.s == [] then [] else Join(",", Retrieved(env, question.s)))
  {
  }

  // ---------------------------------------------------------------------------------------
  // The streamed run.

  datatype RequiredActionUpdate = RequiredActionUpdate(run: ThreadRun, call: ToolCall)

  /** The updates of a stream; only a required action changes the loop's state. */
  datatype StreamingUpdate =
    | RunCreated
    | RequiredAction(action: RequiredActionUpdate)
    | RunCompleted
    | RunError(lastError: string)
    | OtherUpdate

  /** The required actions of a segment, in arrival order. */
  function Actions(us: seq<StreamingUpdate>): seq<RequiredActionUpdate>
  {
    if us == [] then []
    else
      var last := us[|us| - 1];
      Actions(us[..|us| - 1]) + (if last.RequiredAction? then [last.action] else [])
  }

  /** The outputs of a run of required actions, in order; the first call that throws ends
      the run with its exception. */
  function Resolve(env: ChatEnv, actions: seq<RequiredActionUpdate>)
    : Result<seq<Option<ToolOutput>>, Fault>
  {
    if actions == [] then Success([])
    else
      match Resolve(env, actions[..|actions| - 1])
      case Failure(f) => Failure(f)
      case Success(outputs) =>
        match ToolOutputFor(env, actions[|actions| - 1].call)
        case Failure(f) => Failure(f)
        case Success(o) => Success(outputs + [o])
  }

  /** `streamRun` after a segment: the run of its last required action, else unchanged. */
  function LastRun(us: seq<StreamingUpdate>, prev: Option<ThreadRun>): Option<ThreadRun>
  {
    if us == [] then prev
    else if us[|us| - 1].RequiredAction? then Some(us[|us| - 1].action.run)
    else LastRun(us[..|us| - 1], prev)
  }

  /** One output per required action, the j-th answering the j-th call. */
  lemma {:induction false} ResolveMeaning(env: ChatEnv, actions: seq<RequiredActionUpdate>)
    ensures var r := Resolve(env, actions);
      r.Success? ==>
        (|r.value| == |actions| &&
         forall j :: 0 <= j < |actions| ==> ToolOutputFor(env, actions[j].call) == Success(r.value[j]))
    ensures Resolve(env, actions).Success? <==>
      forall j :: 0 <= j < |actions| ==> ToolOutputFor(env, actions[j].call).Success?
  {
    if actions != [] {
      var init := actions[..|actions| - 1];
      ResolveMeaning(env, init);
      assert forall j :: 0 <= j < |init| ==> init[j] == actions[j];
    }
  }

  /** `streamRun` is the run of the last required action seen, and updates of other kinds
      leave it as it was. */
  lemma {:induction false} LastRunMeaning(us: seq<StreamingUpdate>, prev: Option<ThreadRun>)
    ensures Actions(us) == [] ==> LastRun(us, prev) == prev
    ensures Actions(us) != [] ==> LastRun(us, prev) == Some(Actions(us)[|Actions(us)| - 1].run)
  {
    if us != [] {
      LastRunMeaning(us[..|us| - 1], prev);
    }
  }

  /** Updates other than required actions change neither the outputs nor the run. */
  lemma OtherUpdatesIgnored(env: ChatEnv, us: seq<StreamingUpdate>, u: StreamingUpdate,
                            prev: Option<ThreadRun>)
    requires !u.RequiredAction?
    ensures Actions(us + [u]) == Actions(us)
    ensures Resolve(env, Actions(us + [u])) == Resolve(env, Actions(us))
    ensures LastRun(us + [u], prev) == LastRun(us, prev)
  {
    assert (us + [u])[..|us|] == us;
  }

  datatype Submission = Submission(run: Option<ThreadRun>, outputs: seq<Option<ToolOutput>>)

  /** How a conversation ended: the last run seen, the submissions made, and the exception
      that ended it, if one did. */
  datatype Exchange = Exchange(run: Option<ThreadRun>, submissions: seq<Submission>,
                               fault: Option<Fault>)

  /** The segment the stream yields after `k` submissions. */
  function Segment(script: seq<seq<StreamingUpdate>>, k: nat): seq<StreamingUpdate>
  {
    if k < |script| then script[k] else []
  }

  /** The do-while from segment `k`, with `streamRun` = `run` and `subs` submitted so far. */
  function Converse(env: ChatEnv, script: seq<seq<StreamingUpdate>>, k: nat,
                    run: Option<ThreadRun>, subs: seq<Submission>): Exchange
    requires k <= |script|
    decreases |script| - k
  {
    var segment := Segment(script, k);
    match Resolve(env, Actions(segment))
    case Failure(f) => Exchange(run, subs, Some(f))
    case Success(outputs) =>
      var streamRun := LastRun(segment, run);
      if outputs != [] && k < |script| then
        Converse(env, script, k + 1, streamRun, subs + [Submission(streamRun, outputs)])
      else Exchange(streamRun, subs, None)
  }

  /** A submission made for a segment: one output per required action, in order, against
      the run of the last one. */
  predicate SubmittedFor(env: ChatEnv, segment: seq<StreamingUpdate>, s: Submission)
  {
    var actions := Actions(segment);
    actions != [] && s.run == Some(actions[|actions| - 1].run) &&
    |s.outputs| == |actions| &&
    forall j :: 0 <= j < |actions| ==> ToolOutputFor(env, actions[j].call) == Success(s.outputs[j])
  }

  /** What a conversation from segment `k` on (with one submission per earlier segment)
      looks like when it ends without an exception: the earlier submissions are kept, one
      more is made for each segment up to the first that has no required action, and the
      last run seen is that of the last submission. */
  predicate Shaped(env: ChatEnv, script: seq<seq<StreamingUpdate>>, k: nat,
                   run: Option<ThreadRun>, subs: seq<Submission>, ex: Exchange)
  {
    ex.fault.None? ==>
      k <= |ex.submissions| <= |script| && ex.submissions[..k] == subs &&
      (forall i :: k <= i < |ex.submissions| ==>
         SubmittedFor(env, Segment(script, i), ex.submissions[i])) &&
      Actions(Segment(script, |ex.submissions|)) == [] &&
      ex.run == (if |ex.submissions| == k then run else ex.submissions[|ex.submissions| - 1].run)
  }

  lemma {:induction false} ConverseShape(env: ChatEnv, script: seq<seq<StreamingUpdate>>,
                                         k: nat, run: Option<ThreadRun>, subs: seq<Submission>)
    requires k <= |script| && |subs| == k
    ensures Shaped(env, script, k, run, subs, Converse(env, script, k, run, subs))
    decreases |script| - k
  {
    var segment := Segment(script, k);
    var r := Resolve(env, Actions(segment));
    ResolveMeaning(env, Actions(segment));
    LastRunMeaning(segment, run);
    var streamRun := LastRun(segment, run);
    if r.Success? && r.value != [] && k < |script| {
      var s := Submission(streamRun, r.value);
      assert SubmittedFor(env, segment, s);
      var ex := Converse(env, script, k + 1, streamRun, subs + [s]);
      assert Converse(env, script, k, run, subs) == ex;
      ConverseShape(env, script, k + 1, streamRun, subs + [s]);
      ShapeStep(env, script, k, run, subs, s, ex);
    } else if r.Success? {
      assert Actions(segment) == [];
      assert Converse(env, script, k, run, subs) == Exchange(run, subs, None);
      ShapeStop(env, script, k, run, subs);
    }
  }

  /** The step of `ConverseShape`: the submission for segment `k`, then what follows. */
  lemma ShapeStep(env: ChatEnv, script: seq<seq<StreamingUpdate>>, k: nat,
                  run: Option<ThreadRun>, subs: seq<Submission>, s: Submission, ex: Exchange)
    requires |subs| == k && k < |script|
    requires SubmittedFor(env, Segment(script, k), s)
    requires Shaped(env, script, k + 1, s.run, subs + [s], ex)
    ensures Shaped(env, script, k, run, subs, ex)
  {
    if ex.fault.None? {
      var all := ex.submissions;
      var n := |all|;
      PrefixThen(all, subs, s);
      SubmittedFrom(env, script, k, all);
    }
  }

  /** Every submission from `k` on answers its segment once the one at `k` does and those
      after it do. */
  lemma SubmittedFrom(env: ChatEnv, script: seq<seq<StreamingUpdate>>, k: nat,
                      all: seq<Submission>)
    requires k < |all| && SubmittedFor(env, Segment(script, k), all[k])
    requires forall i :: k + 1 <= i < |all| ==> SubmittedFor(env, Segment(script, i), all[i])
    ensures forall i :: k <= i < |all| ==> SubmittedFor(env, Segment(script, i), all[i])
  {
  }

  /** A log that starts with `subs + [s]` starts with `subs`, followed by `s`. */
  lemma PrefixThen(all: seq<Submission>, subs: seq<Submission>, s: Submission)
    requires |subs| + 1 <= |all| && all[..|subs| + 1] == subs + [s]
    ensures all[..|subs|] == subs && all[|subs|] == s
  {
    assert all[..|subs|] == all[..|subs| + 1][..|subs|];
    assert all[|subs|] == all[..|subs| + 1][|subs|];
  }

  /** The end of `ConverseShape`: a segment with no required action stops the loop. */
  lemma ShapeStop(env: ChatEnv, script: seq<seq<StreamingUpdate>>, k: nat,
                  run: Option<ThreadRun>, subs: seq<Submission>)
    requires k <= |script| && |subs| == k && Actions(Segment(script, k)) == []
    ensures Shaped(env, script, k, run, subs, Exchange(run, subs, None))
  {
    assert subs[..k] == subs;
  }

  /** The whole conversation: the number of submissions is the number of segments
      consumed minus one; each carries the outputs of its segment's required actions
      against the run of the last of them; the segment after the last submission has no
      required action; and the messages are read for the run of the last required action
      (none when there was no submission). */
  lemma Conversation(env: ChatEnv, script: seq<seq<StreamingUpdate>>)
    ensures var ex := Converse(env, script, 0, None, []);
      ex.fault.None? ==>
        |ex.submissions| <= |script| &&
        (forall i :: 0 <= i < |ex.submissions| ==>
           SubmittedFor(env, Segment(script, i), ex.submissions[i])) &&
        Actions(Segment(script, |ex.submissions|)) == [] &&
        ex.run == (if ex.submissions == [] then None else ex.submissions[|ex.submissions| - 1].run)
  {
    ConverseShape(env, script, 0, None, []);
  }

  // ---------------------------------------------------------------------------------------
  // The reply.

  datatype ChatMessage = ChatMessage(content: string, sessionId: Option<string>)

  const ThreadIdLabel: string := "\n\n | Thread ID: "
  const ExceptionPrefix: string := "Exception during request: "

  /** The thread of a request: a new one when the session id is null, else the one it
      names. */
  function ThreadFor(env: ChatEnv, threadId: Option<string>): string
  {
    if threadId.None? then env.newThreadId else threadId.value
  }

  function RunIdText(run: Option<ThreadRun>): string
  {
    if run.None? then [] else run.value.id
  }

  /** The reply built from the thread's latest message for the run: its text and the thread
      id, or a diagnostic when its first content item is not text. */
  function FinalMessage(env: ChatEnv, threadId: string, run: Option<ThreadRun>)
    : (r: Result<ChatMessage, Fault>)
    ensures var messages := env.messages(threadId, if run.None? then None else Some(run.value.id));
      r.Success? <==> messages != [] && messages[0].contentItems != []
    ensures r.Success? ==> r.value.sessionId == Some(threadId)
  {
    var messages := env.messages(threadId, if run.None? then None else Some(run.value.id));
    if messages == [] then Failure(InvalidOperation)
    else if messages[0].contentItems == [] then Failure(ArgumentOutOfRange)
    else
      var result := match messages[0].contentItems[0]
        case MessageTextContent(text) => text + ThreadIdLabel + threadId
        case OtherContent =>
          "Latest message " + messages[0].id + " returned in run " + RunIdText(run) +
          " was not a MessageTextContent";
      Success(ChatMessage(result, Some(threadId)))
  }

  /** A text reply is the message text followed by the thread id label and the thread id,
      so both can be read back from it. */
  lemma TextReply(env: ChatEnv, threadId: string, run: Option<ThreadRun>, text: string)
    requires var messages := env.messages(threadId, if run.None? then None else Some(run.value.id));
      messages != [] && messages[0].contentItems != [] &&
      messages[0].contentItems[0] == MessageTextContent(text)
    ensures var r := FinalMessage(env, threadId, run);
      r.Success? && |r.value.content| == |text| + |ThreadIdLabel| + |threadId| &&
      r.value.content[..|text|] == text &&
      r.value.content[|text|..|text| + |ThreadIdLabel|] == ThreadIdLabel &&
      r.value.content[|r.value.content| - |threadId|..] == threadId
  {
    var c := text + ThreadIdLabel + threadId;
    assert c[..|text|] == text;
    assert c[|text|..|text| + |ThreadIdLabel|] == ThreadIdLabel;
    assert c[|c| - |threadId|..] == threadId;
  }

  /** When the latest message does not start with text, the reply names that message and
      the run (empty when there was no submission), and still carries the thread id as its
      session id. */
  lemma DiagnosticReply(env: ChatEnv, threadId: string, run: Option<ThreadRun>)
    requires var messages := env.messages(threadId, if run.None? then None else Some(run.value.id));
      messages != [] && messages[0].contentItems != [] &&
      messages[0].contentItems[0] == OtherContent
    ensures var messages := env.messages(threadId, if run.None? then None else Some(run.value.id));
      FinalMessage(env, threadId, run) ==
        Success(ChatMessage("Latest message " + messages[0].id + " returned in run " +
                            (if run.None? then "" else run.value.id) +
                            " was not a MessageTextContent", Some(threadId)))
  {
  }

  /** `CallAIFoundryAgent(userMessage, threadId)` as the conversation specifies it. */
  function AgentReply(env: ChatEnv, script: seq<seq<StreamingUpdate>>, threadId: Option<string>)
    : Result<ChatMessage, Fault>
  {
    var ex := Converse(env, script, 0, None, []);
    if ex.fault.Some? then Failure(ex.fault.value)
    else FinalMessage(env, ThreadFor(env, threadId), ex.run)
  }

  /** `CallAIFoundryAgent(userMessage, threadId)`: the tool-call loop, then the reply. The
      submissions are returned so that what went to the agent can be stated. */
  method CallAIFoundryAgent(env: ChatEnv, script: seq<seq<StreamingUpdate>>,
                            userMessage: string, threadId: Option<string>)
    returns (reply: Result<ChatMessage, Fault>, submissions: seq<Submission>)
    ensures reply == AgentReply(env, script, threadId)
    ensures submissions == Converse(env, script, 0, None, []).submissions
  {
    var thread := ThreadFor(env, threadId);
    var toolOutputs: seq<Option<ToolOutput>> := [];
    var streamRun: Option<ThreadRun> := None;
    var k := 0;
    var stream := Segment(script, 0);
    submissions := [];
    var more := true;
    while more
      invariant k <= |script|
      invariant stream == Segment(script, k)
      invariant more ==> Converse(env, script, 0, None, [])
                         == Converse(env, script, k, streamRun, submissions)
      invariant !more ==> Converse(env, script, 0, None, [])
                          == Exchange(streamRun, submissions, None)
      decreases |script| - k, if more then 1 else 0
    {
      var outcome, lastRun := ConsumeSegment(env, stream, streamRun);
      if outcome.Failure? {
        return Failure(outcome.error), submissions;
      }
      toolOutputs, streamRun := outcome.value, lastRun;
      if |toolOutputs| > 0 {
        assert stream != [];
        submissions := submissions + [Submission(streamRun, toolOutputs)];
        k := k + 1;
        stream := Segment(script, k);
      }
      more := |toolOutputs| > 0;
    }
    reply := FinalMessage(env, thread, streamRun);
  }

  /** One pass of the `await foreach` over a segment, from an empty `toolOutputs`: every
      required action is resolved in turn and becomes `streamRun`; an exception from a tool
      ends the pass. */
  method ConsumeSegment(env: ChatEnv, stream: seq<StreamingUpdate>, runBefore: Option<ThreadRun>)
    returns (outcome: Result<seq<Option<ToolOutput>>, Fault>, streamRun: Option<ThreadRun>)
    ensures outcome == Resolve(env, Actions(stream))
    ensures outcome.Success? ==> streamRun == LastRun(stream, runBefore)
  {
    var toolOutputs: seq<Option<ToolOutput>> := [];
    streamRun := runBefore;
    var i := 0;
    while i < |stream|
      invariant 0 <= i <= |stream|
      invariant Resolve(env, Actions(stream[..i])) == Success(toolOutputs)
      invariant streamRun == LastRun(stream[..i], runBefore)
    {
      var update := stream[i];
      SegmentStep(env, stream, i, runBefore);
      if update.RequiredAction? {
        var newActionUpdate := update.action;
        var output := GetResolvedToolOutput(env, newActionUpdate.call.functionName,
                                            newActionUpdate.call.toolCallId,
                                            newActionUpdate.call.functionArguments);
        if output.Failure? {
          FaultEndsSegment(env, stream, i + 1);
          return Failure(output.error), streamRun;
        }
        toolOutputs := toolOutputs + [output.value];
        streamRun := Some(newActionUpdate.run);
      }
      i := i + 1;
    }
    assert stream[..i] == stream;
    outcome := Success(toolOutputs);
  }

  /** One update of a segment: a required action resolves one more call and becomes the
      run; any other update changes nothing. */
  lemma SegmentStep(env: ChatEnv, us: seq<StreamingUpdate>, i: nat, prev: Option<ThreadRun>)
    requires i < |us|
    ensures Actions(us[..i + 1]) ==
      Actions(us[..i]) + (if us[i].RequiredAction? then [us[i].action] else [])
    ensures Resolve(env, Actions(us[..i + 1])) ==
      if !us[i].RequiredAction? then Resolve(env, Actions(us[..i]))
      else match Resolve(env, Actions(us[..i]))
        case Failure(f) => Failure(f)
        case Success(outputs) =>
          match ToolOutputFor(env, us[i].action.call)
          case Failure(f) => Failure(f)
          case Success(o) => Success(outputs + [o])
    ensures LastRun(us[..i + 1], prev) ==
      if us[i].RequiredAction? then Some(us[i].action.run) else LastRun(us[..i], prev)
  {
    assert us[..i + 1][..i] == us[..i];
    var a := Actions(us[..i]);
    if us[i].RequiredAction? {
      assert (a + [us[i].action])[..|a|] == a;
    } else {
      assert a + [] == a;
    }
  }

  /** A call that throws ends the segment: the exception is the segment's outcome. */
  lemma {:induction false} FaultEndsSegment(env: ChatEnv, us: seq<StreamingUpdate>, i: nat)
    requires i <= |us| && Resolve(env, Actions(us[..i])).Failure?
    ensures Resolve(env, Actions(us)) == Resolve(env, Actions(us[..i]))
    decreases |us| - i
  {
    if i < |us| {
      SegmentStep(env, us, i, None);
      FaultEndsSegment(env, us, i + 1);
    } else {
      assert us[..i] == us;
    }
  }

  /** The answer of `Query`: the agent's reply, or the exception's text with no session
      id. */
  function Answer(env: ChatEnv, script: seq<seq<StreamingUpdate>>, chatMessage: ChatMessage)
    : ChatMessage
  {
    match AgentReply(env, script, chatMessage.sessionId)
    case Success(m) => m
    case Failure(f) => ChatMessage(ExceptionPrefix + env.describe(f), None)
  }

  /** `Query(chatMessage)`. */
  method Query(env: ChatEnv, script: seq<seq<StreamingUpdate>>, chatMessage: ChatMessage)
    returns (response: ChatMessage)
    ensures response == Answer(env, script, chatMessage)
  {
    var reply, _ := CallAIFoundryAgent(env, script, chatMessage.content, chatMessage.sessionId);
    match reply
    case Success(m) => response := m;
    case Failure(e) => response := ChatMessage(ExceptionPrefix + env.describe(e), None);
  }

  /** Every answer has a session id exactly when the agent replied, and then it is the
      thread of the request (a new one for a null session id); an exception is reported
      with the fixed prefix and no session id. */
  lemma QueryOutcome(env: ChatEnv, script: seq<seq<StreamingUpdate>>, chatMessage: ChatMessage)
    ensures var a := Answer(env, script, chatMessage);
      (a.sessionId.Some? <==> AgentReply(env, script, chatMessage.sessionId).Success?) &&
      (a.sessionId.Some? ==> a.sessionId.value == ThreadFor(env, chatMessage.sessionId)) &&
      (a.sessionId.None? ==> a.content[..|ExceptionPrefix|] == ExceptionPrefix)
    ensures chatMessage.sessionId.Some? ==> ThreadFor(env, chatMessage.sessionId) == chatMessage.sessionId.value
  {
    var r := AgentReply(env, script, chatMessage.sessionId);
    if r.Failure? {
      var c := ExceptionPrefix + env.describe(r.error);
      assert c[..|ExceptionPrefix|] == ExceptionPrefix;
    }
  }
}
