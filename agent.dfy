/** `EmailAgent` (backend.py): the session object holding the inbox and the rule texts
    (the agent's "brain"), with the fixed identifier of the local model. Files are
    modelled by what reading them yields: `None` for a path that does not exist. */
module Agent {
  import opened Text
  import opened Dispatcher

  /** An email id as JSON gives it: a number or a string (`1` and `"1"` differ). */
  datatype EmailId = Num(n: int) | Str(s: string)

  /** One inbox record; `category` is absent until the inbox is categorised. */
  datatype Email = Email(id: EmailId, sender: string, subject: string, body: string,
                         category: Option<string>)

  const DefaultModel: string := "llama3.2"
  const EmailsPath: string := "data/mock_inbox.json"
  const PromptsPath: string := "data/prompts.json"

  /** `load_json` for a list file: its contents, or the empty list when the path does
      not exist. */
  function LoadJson<T>(stored: Option<seq<T>>): (r: seq<T>)
    ensures stored.None? ==> r == []
    ensures stored.Some? ==> r == stored.value
  {
    match stored
    case None => []
    case Some(contents) => contents
  }

  class EmailAgent {
    const emailsPath: string
    const promptsPath: string
    const modelName: string
    var emails: seq<Email>
    var prompts: map<string, string>

    /** Loads both files once. A missing rules file would leave `prompts` as an empty
        list, on which the first lookup fails, so the rules file must exist. */
    constructor (storedEmails: Option<seq<Email>>, storedPrompts: Option<map<string, string>>)
      requires storedPrompts.Some?
      ensures emailsPath == EmailsPath && promptsPath == PromptsPath
      ensures modelName == DefaultModel
      ensures emails == LoadJson(storedEmails)
      ensures prompts == storedPrompts.value
    {
      emailsPath := EmailsPath;
      promptsPath := PromptsPath;
      modelName := DefaultModel;
      emails := LoadJson(storedEmails);
      prompts := storedPrompts.value;
    }

    /** Replaces the whole rule mapping: nothing of the old one survives. */
    method SavePrompts(newPrompts: map<string, string>)
      modifies this`prompts
      ensures prompts == newPrompts
      ensures emails == old(emails)
    {
      prompts := newPrompts;
    }

    /** Sends the rule for `key`, the request and the content to the model and returns
        its stripped reply, or the error sentence when the call fails. Changes nothing. */
    method ProcessWithOllama(chat: ChatRequest -> ChatOutcome, key: string, content: string,
                             request: string := "")
      returns (r: string)
      ensures r == Dispatch(prompts, modelName, key, content, request, chat)
      ensures var outcome := chat(BuildRequest(prompts, modelName, key, content, request));
              && (outcome.Replied? ==> Trimmed(r) && CoreOf(r, outcome.content))
              && (outcome.Failed? ==> ErrorDetail(r) == Some(outcome.message))
    {
      var q := BuildRequest(prompts, modelName, key, content, request);
      var outcome := chat(q);
      r := Reply(outcome);
    }
  }
}
