/** The rules app.py applies around the agent, apart from its rendering: the saved rule
    mapping, the bulk categorisation of the inbox, the choice of the context email, the
    keyword choice of the rule for a chat query and when a reply is kept as the draft. */
module App {
  import opened Text
  import opened Dispatcher
  import opened Agent

  // The three rule keys the application edits and dispatches on.
  const Categorization: string := "categorization"
  const AutoReply: string := "auto_reply"
  const ActionExtraction: string := "action_extraction"
  const RuleKeys: set<string> := {Categorization, AutoReply, ActionExtraction}

  /* ---------- rule editing (sidebar) ---------- */

  /** What the three edit fields show: each rule text, or empty when the key is missing. */
  function EditFields(prompts: map<string, string>): (fields: (string, string, string))
    ensures Categorization in prompts ==> fields.0 == prompts[Categorization]
    ensures Categorization !in prompts ==> fields.0 == ""
    ensures AutoReply in prompts ==> fields.1 == prompts[AutoReply]
    ensures AutoReply !in prompts ==> fields.1 == ""
    ensures ActionExtraction in prompts ==> fields.2 == prompts[ActionExtraction]
    ensures ActionExtraction !in prompts ==> fields.2 == ""
  {
    (Instruction(prompts, Categorization), Instruction(prompts, AutoReply),
     Instruction(prompts, ActionExtraction))
  }

  /** The mapping "Save Configuration" hands to `save_prompts`. */
  function RulesFromEdits(categorization: string, autoReply: string, actionExtraction: string)
    : (m: map<string, string>)
    ensures m.Keys == RuleKeys
    ensures m[Categorization] == categorization && m[AutoReply] == autoReply
    ensures m[ActionExtraction] == actionExtraction
  {
    map[Categorization := categorization, AutoReply := autoReply,
        ActionExtraction := actionExtraction]
  }

  /** After a save the fields show the saved texts back, and every other key dispatches with
      the empty instruction. */
  lemma SavedRulesShownBack(categorization: string, autoReply: string, actionExtraction: string)
    ensures var m := RulesFromEdits(categorization, autoReply, actionExtraction);
            && EditFields(m) == (categorization, autoReply, actionExtraction)
            && forall key :: key !in RuleKeys ==> Instruction(m, key) == ""
  {
  }

  /** Saving the fields unedited gives back the rules when they had exactly the three keys;
      any other key they had is dropped, and a missing one is saved empty. */
  lemma UneditedSave(prompts: map<string, string>)
    ensures var (c, a, x) := EditFields(prompts);
            var m := RulesFromEdits(c, a, x);
            && m.Keys == RuleKeys
            && (forall key :: key in RuleKeys ==> m[key] == Instruction(prompts, key))
            && (prompts.Keys == RuleKeys ==> m == prompts)
  {
    var (c, a, x) := EditFields(prompts);
    var m := RulesFromEdits(c, a, x);
    if prompts.Keys == RuleKeys {
      forall key | key in RuleKeys ensures m[key] == prompts[key] {
      }
    }
  }

  /** "Save Configuration": the agent's rules become exactly the three edited texts. */
  method SaveConfiguration(agent: EmailAgent, categorization: string, autoReply: string,
                           actionExtraction: string)
    modifies agent`prompts
    ensures agent.prompts == RulesFromEdits(categorization, autoReply, actionExtraction)
    ensures agent.emails == old(agent.emails)
  {
    agent.SavePrompts(RulesFromEdits(categorization, autoReply, actionExtraction));
  }

  /* ---------- inbox categorisation ---------- */

  /** The content sent to the model for one email. */
  function CategorizationContent(e: Email): (r: string)
    ensures |r| == |"Subject: "| + |e.subject| + |"\nBody: "| + |e.body|
    ensures r[..9] == "Subject: " && r[9..9 + |e.subject|] == e.subject
    ensures r[9 + |e.subject|..16 + |e.subject|] == "\nBody: " && r[16 + |e.subject|..] == e.body
  {
    "Subject: " + e.subject + "\nBody: " + e.body
  }

  /** One email after categorisation: the dispatcher's answer for the categorisation rule
      becomes its category; its other fields are kept. */
  function Categorized(e: Email, prompts: map<string, string>, model: string,
                       chat: ChatRequest -> ChatOutcome): (r: Email)
    ensures r.id == e.id && r.sender == e.sender && r.subject == e.subject && r.body == e.body
    ensures r.category.Some?
    ensures var outcome := chat(BuildRequest(prompts, model, Categorization, CategorizationContent(e), ""));
            && (outcome.Replied? ==> Trimmed(r.category.value) && CoreOf(r.category.value, outcome.content))
            && (outcome.Failed? ==> r.category.value == ErrorPrefix + outcome.message + ErrorSuffix)
  {
    e.(category := Some(Dispatch(prompts, model, Categorization, CategorizationContent(e), "", chat)))
  }

  /** The whole inbox after categorisation, in the same order. */
  function CategorizeAll(emails: seq<Email>, prompts: map<string, string>, model: string,
                         chat: ChatRequest -> ChatOutcome): (r: seq<Email>)
    ensures |r| == |emails|
    ensures forall i :: 0 <= i < |emails| ==> r[i] == Categorized(emails[i], prompts, model, chat)
  {
    if emails == [] then []
    else [Categorized(emails[0], prompts, model, chat)] + CategorizeAll(emails[1..], prompts, model, chat)
  }

  /** Categorising again starts from the subject and body alone: each email's second
      request is the request it was first categorised with, so the categories already
      stored play no part, and a second run with any model gives what that model would
      give for the uncategorised inbox. */
  lemma RecategorizeIgnoresCategories(emails: seq<Email>, prompts: map<string, string>, model: string,
                                      first: ChatRequest -> ChatOutcome,
                                      second: ChatRequest -> ChatOutcome)
    ensures var once := CategorizeAll(emails, prompts, model, first);
            && (forall i :: 0 <= i < |emails| ==>
                  BuildRequest(prompts, model, Categorization, CategorizationContent(once[i]), "")
                  == BuildRequest(prompts, model, Categorization, CategorizationContent(emails[i]), ""))
            && CategorizeAll(once, prompts, model, second) == CategorizeAll(emails, prompts, model, second)
  {
    var once := CategorizeAll(emails, prompts, model, first);
    var again := CategorizeAll(once, prompts, model, second);
    var direct := CategorizeAll(emails, prompts, model, second);
    forall i | 0 <= i < |emails| ensures again[i] == direct[i] {
      assert CategorizationContent(once[i]) == CategorizationContent(emails[i]);
    }
  }

  /** "Auto-Categorize Inbox": one model call per email, in order, each writing the
      email's category in place. */
  method AutoCategorize(agent: EmailAgent, chat: ChatRequest -> ChatOutcome)
    modifies agent`emails
    ensures agent.emails == CategorizeAll(old(agent.emails), agent.prompts, agent.modelName, chat)
    ensures agent.prompts == old(agent.prompts)
  {
    ghost var before := agent.emails;
    var i := 0;
    while i < |agent.emails|
      invariant |agent.emails| == |before|
      invariant 0 <= i <= |before|
      invariant forall k :: 0 <= k < i ==>
                  agent.emails[k] == Categorized(before[k], agent.prompts, agent.modelName, chat)
      invariant forall k :: i <= k < |before| ==> agent.emails[k] == before[k]
    {
      var email := agent.emails[i];
      var category := agent.ProcessWithOllama(chat, Categorization, CategorizationContent(email));
      agent.emails := agent.emails[i := email.(category := Some(category))];
      i := i + 1;
    }
  }

  /* ---------- chat ---------- */

  predicate HasId(emails: seq<Email>, id: EmailId) {
    exists k :: 0 <= k < |emails| && emails[k].id == id
  }

  /** Position of the first email with the given id. */
  function FirstWithId(emails: seq<Email>, id: EmailId): (i: nat)
    requires HasId(emails, id)
    ensures i < |emails| && emails[i].id == id
    ensures forall j :: 0 <= j < i ==> emails[j].id != id
  {
    if emails[0].id == id then 0
    else
      assert HasId(emails[1..], id) by {
        var k :| 0 <= k < |emails| && emails[k].id == id;
        assert emails[1..][k - 1].id == id;
      }
      1 + FirstWithId(emails[1..], id)
  }

  /** The context email of the chat: the first email whose id is the selected one. */
  function SelectedEmail(emails: seq<Email>, id: EmailId): (e: Email)
    requires HasId(emails, id)
    ensures e.id == id
    ensures exists i :: 0 <= i < |emails| && emails[i] == e
                        && forall j :: 0 <= j < i ==> emails[j].id != id
  {
    var i := FirstWithId(emails, id);
    emails[i]
  }

  /** Categorising does not change which email a selected id refers to: it is the same
      record, now carrying its category. */
  lemma SelectionSurvivesCategorize(emails: seq<Email>, prompts: map<string, string>, model: string,
                                    chat: ChatRequest -> ChatOutcome, id: EmailId)
    requires HasId(emails, id)
    ensures var after := CategorizeAll(emails, prompts, model, chat);
            HasId(after, id)
            && SelectedEmail(after, id) == Categorized(SelectedEmail(emails, id), prompts, model, chat)
  {
    var after := CategorizeAll(emails, prompts, model, chat);
    var i := FirstWithId(emails, id);
    assert after[i] == Categorized(emails[i], prompts, model, chat);
    var j := FirstWithId(after, id);
    assert after[j] == Categorized(emails[j], prompts, model, chat);
    assert i == j;
  }

  /** Python's `word in query.lower()`. */
  predicate Mentions(query: string, word: string)
    ensures Mentions(query, word) <==> exists i :: OccursAt(Lower(query), word, i)
  {
    Contains(Lower(query), word)
  }

  /** The rule a chat query runs under: "reply" or "draft" before "task", categorisation
      otherwise. */
  function SelectPromptType(query: string): (key: string)
    ensures key in RuleKeys
    ensures key == AutoReply <==> Mentions(query, "reply") || Mentions(query, "draft")
    ensures key == ActionExtraction
            <==> !Mentions(query, "reply") && !Mentions(query, "draft") && Mentions(query, "task")
    ensures key == Categorization
            <==> !Mentions(query, "reply") && !Mentions(query, "draft") && !Mentions(query, "task")
  {
    if Mentions(query, "reply") || Mentions(query, "draft") then AutoReply
    else if Mentions(query, "task") then ActionExtraction
    else Categorization
  }

  /** Whether the answer to a query is kept as the last draft: only "reply" counts. */
  predicate SavesDraft(query: string)
    ensures SavesDraft(query) ==> SelectPromptType(query) == AutoReply
  {
    Mentions(query, "reply")
  }

  /** The keywords are found whatever their case: a query with "REPLY" in capitals is
      answered under the reply rule and its answer is kept. */
  lemma CapitalReplyCounts(query: string)
    requires Contains(query, "REPLY")
    ensures SelectPromptType(query) == AutoReply && SavesDraft(query)
  {
    ContainsLower(query, "REPLY");
    assert Lower("REPLY") == "reply";
  }

  /** A query that says "draft" but not "reply" is answered under the reply rule, yet its
      answer is not kept as the draft. */
  lemma DraftWithoutReplyKeepsNoDraft(query: string)
    requires Mentions(query, "draft") && !Mentions(query, "reply")
    ensures SelectPromptType(query) == AutoReply && !SavesDraft(query)
  {
  }

  /** "Draft" is such a query. */
  lemma DraftAloneKeepsNoDraft()
    ensures SelectPromptType("Draft") == AutoReply && !SavesDraft("Draft")
  {
    assert Lower("Draft") == "draft";
    assert Contains("draft", "draft");
    assert !Contains("draft", "reply");
    DraftWithoutReplyKeepsNoDraft("Draft");
  }

  /** One chat turn about the selected email: an empty query does nothing; otherwise the
      query picks the rule, the selected email's body is the content and the query itself
      is the request, and the answer replaces the last draft when the query says "reply". */
  method ChatTurn(agent: EmailAgent, chat: ChatRequest -> ChatOutcome, selectedId: EmailId,
                  query: string, lastDraft: Option<string>)
    returns (response: Option<string>, draft: Option<string>)
    requires HasId(agent.emails, selectedId)
    ensures query == [] ==> response == None
    ensures query != [] ==> response == Some(Dispatch(agent.prompts, agent.modelName,
                                                      SelectPromptType(query),
                                                      SelectedEmail(agent.emails, selectedId).body,
                                                      query, chat))
    ensures draft == if query != [] && SavesDraft(query) then response else lastDraft
  {
    var email := SelectedEmail(agent.emails, selectedId);
    if query == [] {
      return None, lastDraft;
    }
    var key := SelectPromptType(query);
    var answer := agent.ProcessWithOllama(chat, key, email.body, query);
    response := Some(answer);
    draft := if SavesDraft(query) then response else lastDraft;
  }
}
