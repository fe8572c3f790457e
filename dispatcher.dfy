/** The prompt dispatcher behind `EmailAgent.process_with_ollama` (backend.py): look up the
    rule text for a key, lay it out with the operator's request and the email content in a
    fixed template, send that as one user message to the local model, and turn the outcome
    into a string. The model call itself (`ollama.chat`) is an oracle `chat` given as a
    parameter: whatever it does, it answers a request with reply text or with the message
    of the exception it raised. */
module Dispatcher {
  import opened Text

  /** One chat message: a role and its text. */
  datatype Message = Message(role: string, content: string)

  /** The arguments of the model call: the model identifier and the messages. */
  datatype ChatRequest = ChatRequest(model: string, messages: seq<Message>)

  /** `response['message']['content']` of a call that returned, or the text of the
      exception caught around the call. */
  datatype ChatOutcome = Replied(content: string) | Failed(message: string)

  // The fixed text of the template, indentation included: a line break and eight blanks
  // open every line of the triple-quoted string.
  const Indent: string := "\n        "
  const SystemTag: string := "SYSTEM INSTRUCTION: "
  const RequestTag: string := "USER REQUEST: "
  const ContentTag: string := "EMAIL CONTENT:" + Indent
  const SystemLabel: string := Indent + SystemTag
  const RequestLabel: string := Indent + Indent + RequestTag
  const ContentLabel: string := Indent + Indent + ContentTag
  const Closing: string := Indent

  const ErrorPrefix: string := "Error connecting to Ollama: "
  const ErrorSuffix: string := ". Is the app running?"

  /** `prompts.get(key, "")`: the rule text stored under `key`, or the empty instruction. */
  function Instruction(prompts: map<string, string>, key: string): (r: string)
    ensures key in prompts ==> r == prompts[key]
    ensures key !in prompts ==> r == ""
  {
    if key in prompts then prompts[key] else ""
  }

  /** Where the three parts sit in a string laid out as the template lays them out. */
  lemma PartsAt(head: string, part1: string, gap: string, part2: string, part3: string, tail: string)
    ensures var p := head + part1 + gap + part2 + gap + part3 + tail;
            var u := |head| + |part1| + |gap|;
            && OccursAt(p, part1, |head|)
            && OccursAt(p, part2, u)
            && OccursAt(p, part3, u + |part2| + |gap|)
  {
    var p := head + part1 + gap + part2 + gap + part3 + tail;
    var u := |head| + |part1| + |gap|;
    assert p[|head|..|head| + |part1|] == part1;
    assert p[u..u + |part2|] == part2;
    assert p[u + |part2| + |gap|..u + |part2| + |gap| + |part3|] == part3;
  }

  /** The message text: instruction, then the operator's request, then the email. The
      sections appear in the order SYSTEM INSTRUCTION, USER REQUEST, EMAIL CONTENT, each tag
      directly followed by its part and none overlapping the next, even when a part is
      empty. */
  function ComposePrompt(instruction: string, request: string, content: string): (p: string)
    ensures var s := |Indent|;
            var u := s + |SystemTag| + |instruction| + 2 * |Indent|;
            var c := u + |RequestTag| + |request| + 2 * |Indent|;
            && OccursAt(p, SystemTag + instruction, s)
            && OccursAt(p, RequestTag + request, u)
            && OccursAt(p, ContentTag + content, c)
            && s + |SystemTag + instruction| < u && u + |RequestTag + request| < c
            && |p| == c + |ContentTag + content| + |Closing|
  {
    var p := SystemLabel + instruction + RequestLabel + request + ContentLabel + content + Closing;
    assert p == Indent + (SystemTag + instruction) + (Indent + Indent) + (RequestTag + request)
                + (Indent + Indent) + (ContentTag + content) + Closing;
    PartsAt(Indent, SystemTag + instruction, Indent + Indent, RequestTag + request,
            ContentTag + content, Closing);
    p
  }

  /** Reads the three parts back out of a message, given how long the first two are. */
  function SplitPrompt(p: string, instructionLen: nat, requestLen: nat): Option<(string, string, string)> {
    var a := |SystemLabel|;
    var b := a + instructionLen;
    var c := b + |RequestLabel|;
    var d := c + requestLen;
    var e := d + |ContentLabel|;
    if e + |Closing| <= |p| && p[..a] == SystemLabel && p[b..c] == RequestLabel
       && p[d..e] == ContentLabel && p[|p| - |Closing|..] == Closing
    then Some((p[a..b], p[c..d], p[e..|p| - |Closing|]))
    else None
  }

  /** The template loses nothing: the three parts can be read back exactly. */
  lemma SplitComposed(instruction: string, request: string, content: string)
    ensures SplitPrompt(ComposePrompt(instruction, request, content), |instruction|, |request|)
            == Some((instruction, request, content))
  {
    var p := ComposePrompt(instruction, request, content);
    var a := |SystemLabel|;
    var b := a + |instruction|;
    var c := b + |RequestLabel|;
    var d := c + |request|;
    var e := d + |ContentLabel|;
    assert p[..a] == SystemLabel;
    assert p[a..b] == instruction;
    assert p[b..c] == RequestLabel;
    assert p[c..d] == request;
    assert p[d..e] == ContentLabel;
    assert p[e..|p| - |Closing|] == content;
    assert p[|p| - |Closing|..] == Closing;
  }

  /** Every message that splits is the template filled with the parts it splits into. */
  lemma ComposedSplit(p: string, instructionLen: nat, requestLen: nat)
    requires SplitPrompt(p, instructionLen, requestLen).Some?
    ensures var (instruction, request, content) := SplitPrompt(p, instructionLen, requestLen).value;
            |instruction| == instructionLen && |request| == requestLen
            && p == ComposePrompt(instruction, request, content)
  {
    var a := |SystemLabel|;
    var b := a + instructionLen;
    var c := b + |RequestLabel|;
    var d := c + requestLen;
    var e := d + |ContentLabel|;
    var f := |p| - |Closing|;
    assert p[..b] == p[..a] + p[a..b];
    assert p[..c] == p[..b] + p[b..c];
    assert p[..d] == p[..c] + p[c..d];
    assert p[..e] == p[..d] + p[d..e];
    assert p[..f] == p[..e] + p[e..f];
    assert p == p[..f] + p[f..];
  }

  /** The arguments of `ollama.chat`: the agent's fixed model identifier and a single
      user-role message holding the composed prompt. */
  function BuildRequest(prompts: map<string, string>, model: string, key: string,
                        content: string, request: string): (q: ChatRequest)
    ensures q.model == model && |q.messages| == 1 && q.messages[0].role == "user"
    ensures var instruction := Instruction(prompts, key);
            SplitPrompt(q.messages[0].content, |instruction|, |request|)
            == Some((instruction, request, content))
  {
    var instruction := Instruction(prompts, key);
    SplitComposed(instruction, request, content);
    ChatRequest(model, [Message("user", ComposePrompt(instruction, request, content))])
  }

  /** The failure text an error sentence carries, if the string is one. */
  function ErrorDetail(r: string): Option<string> {
    if |ErrorPrefix| + |ErrorSuffix| <= |r| && r[..|ErrorPrefix|] == ErrorPrefix
       && r[|r| - |ErrorSuffix|..] == ErrorSuffix
    then Some(r[|ErrorPrefix|..|r| - |ErrorSuffix|])
    else None
  }

  /** What `process_with_ollama` returns for a model outcome: the reply stripped of
      surrounding whitespace, or the fixed error sentence around the failure text. */
  function Reply(outcome: ChatOutcome): (r: string)
    ensures outcome.Replied? ==> Trimmed(r) && CoreOf(r, outcome.content)
    ensures outcome.Failed? ==> r == ErrorPrefix + outcome.message + ErrorSuffix
                                && ErrorDetail(r) == Some(outcome.message)
  {
    match outcome
    case Replied(text) => Strip(text)
    case Failed(message) =>
      var r := ErrorPrefix + message + ErrorSuffix;
      assert r[..|ErrorPrefix|] == ErrorPrefix;
      assert r[|r| - |ErrorSuffix|..] == ErrorSuffix;
      assert r[|ErrorPrefix|..|r| - |ErrorSuffix|] == message;
      r
  }

  /** `process_with_ollama(key, content, request)` for an agent holding `prompts` and
      `model`, with `chat` standing for the model. */
  function Dispatch(prompts: map<string, string>, model: string, key: string, content: string,
                    request: string, chat: ChatRequest -> ChatOutcome): (r: string)
    ensures var outcome := chat(BuildRequest(prompts, model, key, content, request));
            && (outcome.Replied? ==> Trimmed(r) && CoreOf(r, outcome.content))
            && (outcome.Failed? ==> ErrorDetail(r) == Some(outcome.message))
  {
    Reply(chat(BuildRequest(prompts, model, key, content, request)))
  }

  /** A successful call returns the reply text cut down to its whitespace-free core: only
      surrounding whitespace is removed, and stripping the result again changes nothing. */
  lemma RepliedIsStripped(text: string)
    ensures var r := Reply(Replied(text));
            Trimmed(r) && CoreOf(r, text) && Strip(r) == r
  {
    StripIdempotent(text);
  }

  /** A key with no rule is not an error: the call still goes out, with an empty
      instruction, exactly as if the rule existed and were empty. */
  lemma MissingRuleIsEmptyRule(prompts: map<string, string>, model: string, key: string,
                               content: string, request: string, chat: ChatRequest -> ChatOutcome)
    requires key !in prompts
    ensures SplitPrompt(BuildRequest(prompts, model, key, content, request).messages[0].content, 0, |request|)
            == Some(("", request, content))
    ensures Dispatch(prompts, model, key, content, request, chat)
            == Dispatch(prompts[key := ""], model, key, content, request, chat)
  {
    assert Instruction(prompts, key) == Instruction(prompts[key := ""], key);
  }
}
