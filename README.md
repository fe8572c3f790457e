# Local prompt-driven email agent: the dispatcher and its rules, in Dafny

This project models the logic of a single-user email assistant. The assistant keeps an
inbox and three operator-written rules (its "brain"). It sends one rule, the operator's
request and an email to a locally hosted language model, then shows the answer.

- `text.dfy` (module `Text`): the Python string operations the agent relies on.
  - `Strip` models `str.strip()`, with the proof that it removes exactly the surrounding
    whitespace.
  - `Lower` models `str.lower()` on ASCII letters.
  - `Contains` models the substring test `word in text`.
- `dispatcher.dfy` (module `Dispatcher`): the pure core of
  `EmailAgent.process_with_ollama`. Given the model's outcome, the result is fully
  determined by the steps below.
  - Look up the rule text, falling back to `""`.
  - Fill the fixed template, keeping its literal indentation.
  - Build the request: the agent's model identifier plus one user message.
  - Turn the outcome into a string: a stripped reply, or the error sentence.
  - The model call (`ollama.chat`) is a parameter `chat: ChatRequest -> ChatOutcome`.
    `Replied(text)` stands for `response['message']['content']`. `Failed(message)` stands
    for `str(e)` of any exception raised inside the `try`.
- `agent.dfy` (module `Agent`): the class `EmailAgent`.
  - Fields: `emails`, `prompts` and the constant `modelName` (`"llama3.2"`).
  - `SavePrompts` replaces `prompts` wholesale.
  - `ProcessWithOllama` is proved equal to the dispatcher function. It has no `modifies`
    clause, so it changes nothing.
  - Reading a file is modelled by what the read yields: `None` for a path that does not
    exist.
- `app.dfy` (module `App`): the rules app.py applies around the agent, taken out of the
  page code.
  - The configuration mapping saved from the three edit fields.
  - The in-place bulk categorisation loop.
  - The lookup of the context email by id.
  - The keyword choice of the rule for a chat query.
  - The condition for keeping the answer as the last draft.

## Model

| member | source | states |
|---|---|---|
| `Text.Strip` | backend.py:51 | the result has no whitespace at either end, and it is the input with only a leading and a trailing run of whitespace removed |
| `Text.StripIsTheCore` | backend.py:51 | any slice of the input with no whitespace at its ends and only whitespace around it is exactly what strip returns, so stripping changes nothing else |
| `Text.StripIdempotent` | backend.py:51 | stripping an already stripped reply leaves it unchanged |
| `Text.Lower` | app.py:91-93 | lower-casing keeps the length, turns every capital A-Z into its small letter, leaves every other character alone, and leaves no capital behind |
| `Text.Contains` | app.py:91-93 | the substring test holds exactly when the word occurs at some position of the text; the empty word occurs in every text |
| `Text.ContainsLower` | app.py:91-93 | a word found in a query is still found after both are lower-cased |
| `Dispatcher.SplitComposed` | backend.py:37-44 | the composed prompt keeps the instruction, the request and the content intact: given their lengths, all three can be read back |
| `Dispatcher.ComposedSplit` | backend.py:37-44 | every message that splits into three parts is exactly the template filled with those parts, so the template is the only layout |
| `Dispatcher.Instruction` | backend.py:34 | the rule text stored under the key, or the empty instruction when the key has no rule |
| `Dispatcher.ComposePrompt` | backend.py:37-44 | `SYSTEM INSTRUCTION: ` with the instruction, then `USER REQUEST: ` with the request, then `EMAIL CONTENT:` with the content, at fixed positions that do not overlap and in that order, even when the request is empty; the message ends with the closing line break and indentation |
| `Dispatcher.BuildRequest` | backend.py:34-50 | the call names the agent's own model identifier and sends exactly one user-role message, and that message splits into the looked-up rule text, the request and the content |
| `Dispatcher.MissingRuleIsEmptyRule` | backend.py:34 | a key with no rule is not an error: the call still goes out, with an empty instruction, and the result is the one an empty rule would give |
| `Dispatcher.RepliedIsStripped` | backend.py:51 | on a successful call the result is the reply content with only the surrounding whitespace removed, and stripping it again changes nothing |
| `Dispatcher.Reply` | backend.py:51-53 | a reply comes back with no whitespace at its ends and is the reply text with only surrounding whitespace removed. A failure gives exactly `Error connecting to Ollama: ` + message + `. Is the app running?`, from which the failure text can be read back out verbatim |
| `Dispatcher.Dispatch` | backend.py:29-53 | for the outcome of the request built from the rules, the model, the key, the content and the request: a reply gives its stripped text, and a failure gives an error sentence carrying the failure text |
| `Agent.LoadJson` | backend.py:17-21 | reading a path that does not exist yields the empty list; otherwise it yields the file's contents |
| `Agent.EmailAgent.constructor` | backend.py:6-15 | the paths and the model identifier `llama3.2` are fixed; the emails and the rules are loaded once; the rules file must exist |
| `Agent.EmailAgent.SavePrompts` | backend.py:23-25 | the rules become exactly the given mapping, with no merge, and the inbox is untouched |
| `Agent.EmailAgent.ProcessWithOllama` | backend.py:29-53 | the result equals the dispatcher's answer for the agent's rules and model; a successful reply comes back stripped of surrounding whitespace only, and a failure gives an error sentence carrying the failure text; the request defaults to empty; nothing is modified |
| `App.EditFields` | app.py:21-23 | each edit field shows the rule stored under its key, or is empty when that key has no rule |
| `App.RulesFromEdits` | app.py:26-30 | the saved mapping has exactly the keys `categorization`, `auto_reply`, `action_extraction`, each holding its own edit field |
| `App.SavedRulesShownBack` | app.py:21-30 | after a save the fields show the saved texts back, and any other key now dispatches with the empty instruction |
| `App.UneditedSave` | app.py:18-31 | saving the fields unedited keeps exactly the three keys with their current texts (or empty when missing); rules that had exactly those keys are saved back unchanged |
| `App.SaveConfiguration` | app.py:25-31 | the agent's rules become exactly the three edited texts under the three keys, and the inbox is untouched |
| `App.CategorizeAll` | app.py:47-56 | the categorised inbox has the same length and order, and each email is the original one with its category set to the dispatcher's answer for `categorization` on `Subject: <subject>\nBody: <body>` |
| `App.CategorizationContent` | app.py:53 | the content is `Subject: `, then the subject, then a line break and `Body: `, then the body, with nothing else |
| `App.Categorized` | app.py:51-56 | id, sender, subject and body are kept and a category is always set. A failed call stores the error sentence as the category; a successful call stores the stripped reply |
| `App.RecategorizeIgnoresCategories` | app.py:47-56 | categorising an inbox again sends, for every email, the same request as the first run did, so stored categories play no part: a second run gives what the model would give for the inbox before its first categorisation |
| `App.AutoCategorize` | app.py:47-56 | the loop writes every email's category in place, so the inbox becomes the categorised inbox of its old value; the rules are unchanged |
| `App.FirstWithId` | app.py:74 | the chosen position holds an email with the selected id, and no earlier email has that id |
| `App.SelectedEmail` | app.py:74 | the context email has the selected id, and it is the first email in the inbox with that id |
| `App.SelectionSurvivesCategorize` | app.py:47-74 | after categorisation the selected id still finds an email: the same record, now carrying its category |
| `App.Mentions` | app.py:91-105 | a query mentions a word exactly when the word occurs somewhere in the lower-cased query |
| `App.SelectPromptType` | app.py:90-94 | the key is one of the three rule keys. `auto_reply` is chosen exactly when the lower-cased query contains "reply" or "draft". `action_extraction` is chosen exactly when it contains "task" but neither of those. `categorization` covers every other query, so "reply"/"draft" outrank "task" |
| `App.SavesDraft` | app.py:105-106 | an answer is kept as the draft only for queries containing "reply", and those are always answered under `auto_reply` |
| `App.CapitalReplyCounts` | app.py:91-105 | the keyword test ignores case: a query containing "REPLY" selects `auto_reply` and keeps its answer as the draft |
| `App.DraftWithoutReplyKeepsNoDraft` | app.py:91-106 | any query that mentions "draft" but not "reply" is answered under `auto_reply`, yet its answer is not kept as the draft |
| `App.DraftAloneKeepsNoDraft` | app.py:91-106 | for example, the query "Draft" selects `auto_reply` but does not keep a draft |
| `App.ChatTurn` | app.py:74-106 | an empty query does nothing. Otherwise the answer is the dispatcher's result for the selected rule, with the first email of the selected id as content and the query as the request. The last draft is replaced by that answer exactly when the query says "reply" |

## Left out

- Everything Streamlit renders or stores for display: page setup, the sidebar, tabs, the
  chat widgets, success messages, `st.rerun`, and the `DataFrame` table (app.py:63-64).
  The session state is modelled only as the agent object and the last draft.
- The progress bar and its fraction `(i+1)/len(emails)` (app.py:44-57): floating point and
  display only.
- File access in `load_json` and `save_prompts`: `open`, `json.load`, `json.dump`
  (backend.py:18-20, 26-27). A read is modelled by its result; writing the rules file is
  not modelled.
- The inside of `ollama.chat` and the shape of its response beyond
  `['message']['content']`. It is the oracle `chat`. A reply without that shape, or with
  content that is not a string, raises inside the `try` and is one of the `Failed` outcomes.
- `str.strip` and `str.lower` on non-ASCII characters. Whitespace is the ASCII set Python
  treats as whitespace; only `A`-`Z` are lower-cased.
- The model is modelled as a fixed function `chat` of its request. A real, sampling model
  may answer the same request differently on two calls, for instance on a second
  categorisation run or for two emails with the same subject and body. Facts that compare
  two calls therefore compare the requests sent, or take each call's outcome as given.
- Agent.EmailAgent.constructor: a missing rules file makes `prompts` an empty list, and
  the first `.get` on it raises outside the `try`. The constructor therefore requires the
  rules file to exist, instead of modelling that crash.
- App.FirstWithId: `next(...)` raises `StopIteration` when no email has the selected id
  (app.py:74). The lookup therefore requires the id to be present. The id comes from the
  same inbox (app.py:71-72).
- App.AutoCategorize: the emails are values, so two list entries that are the same
  dictionary object (aliasing) are not modelled. Extra dictionary keys beyond id, sender,
  subject, body and category are not modelled either.
- App.ChatTurn: a query that was never submitted (`None`) is treated like the empty
  string. Both are falsy at app.py:83.
