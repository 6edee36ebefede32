# AI chatbot front end: a Dafny model of its deterministic core

The application is a single Streamlit script (`app.py`) that forwards a user's message, optionally
framed by text extracted from an uploaded document, to a hosted language model, shows the exchange,
and keeps every chat in one JSON file of histories. This project models the parts of that script
that compute something rather than draw something:

- **Titles** (`titles.dfy`): `generate_chat_title`, the label a saved chat gets.
- **Chat** (`chat.dfy`): the prompt `chatbot` builds from the input and the file context, and the
  reply it returns (the model's text, or a fixed apology when the call fails).
- **HistoryStore** (`history_store.dfy`): `load_chat_history` and `save_chat_history` over the
  histories file, seen as a disk that is missing, malformed, unreadable or holds a table from chat
  identifier to entry; `HistoryFile` is the file as mutable state.
- **ContentExtractor** (`content_extractor.dfy`): `read_file_content`, the dispatch on the declared
  media type and the page and paragraph loops, with what the libraries yield given as input.
- **Sidebar** (`sidebar.dfy`): the history list sorted by timestamp, newest first.
- **Session** (`session.dfy`): the session state (`current_chat_id`, `conversation`, `counter`,
  `file_content`) as a class, with the first-run initialisation, `new_chat`, the new-chat button,
  an upload, opening a saved chat and a submission as methods.
- **Clock** (`clock.dfy`): clock readings and the three `strftime` formats the script uses, and
  Python's `<` on strings, so that ordering by timestamp string can be related to time.
- **Conversations**, **Wrappers**: the exchange and entry records, and `Option` with Python
  truthiness of an optional string.

Interactions with the outside are parameters: the clock reading `now`, the language model
`generate: string -> Option<string>` (`None` where the call raises), the disk's content, whether
writing the file succeeds, and for an upload what each library returns (`None` where it raises).

The script ends every extracted page and paragraph with a newline (app.py:249, 254), so the text,
when there is at least one page or paragraph, ends with one; and it submits any non-empty input, whatever button was pressed
(`send_button or True`, app.py:363).

## Model

| member | source | states |
|---|---|---|
| Clock.FormatDate | app.py:41 | `%Y-%m-%d` gives a fixed ten-character date |
| Clock.FormatTimestamp | app.py:60 | `%Y-%m-%d %H:%M:%S` gives a fixed nineteen-character timestamp |
| Clock.FormatChatId | app.py:236 | `%Y%m%d_%H%M%S` gives a fixed fifteen-character chat identifier |
| Clock.StrLess | app.py:324-328 | Python's `<` on `str`, the sort's comparison: a proper prefix is smaller, and whenever `a < b`, `b` is non-empty and not a prefix of `a` |
| Clock.StrLessIrreflexive | app.py:324-328 | Python's string `<`, the sort's comparison, is irreflexive |
| Clock.StrLessTransitive | app.py:324-328 | Python's string `<` is transitive |
| Clock.StrLessTotal | app.py:324-328 | of two different strings one is smaller, so the sort key is a total order |
| Clock.StrLessConcat | app.py:324-328 | comparing strings that start with equal-width parts compares those parts first |
| Clock.TimestampOrder | app.py:60 | for clock readings, one timestamp string is smaller than another exactly when its instant is earlier, and equal exactly when the instants are |
| Titles.BeforeFirstDot | app.py:39 | `split('.')[0]` is a prefix without `.` that is the whole string or is followed by its first `.` |
| Titles.Truncate | app.py:39 | `[:30]` is a prefix of length min(30, length) |
| Titles.GenerateChatTitle | app.py:35-41 | for a conversation, the title is at most 33 characters, ends in `...`, and its body is a prefix of the first user message without `.`, stopping only at 30 characters, the message's end or its first `.`; for none, `New Chat ` and the date |
| Titles.TitleBodyUnique | app.py:37-40 | that description of the body admits exactly one string, the one the title is built from |
| Titles.HelloTitle | app.py:37-40 | a first message "Hello. How are you?" gives the title "Hello..." |
| Chat.BuildPrompt | app.py:23-27 | a truthy context gives `Context: ` + context + `\n\nQuestion: ` + input + the fixed instruction; no context or an empty one gives the input unchanged |
| Chat.PromptIsInputIff | app.py:23-27 | the prompt equals the input if and only if the context is absent or empty |
| Chat.PromptCarries | app.py:24-25 | with a context, the prompt opens with the labelled context, holds the question verbatim after the question label, and ends with the instruction |
| Chat.Chatbot | app.py:18-33 | the reply is the model's text for exactly that prompt, or the apology when the call fails |
| HistoryStore.LoadChatHistory | app.py:43-52 | a missing or malformed file loads as the empty table, a stored table loads unchanged, any other read error escapes |
| HistoryStore.ChosenTitle | app.py:59 | a non-empty caller title is kept; `None` or `""` fall through to the derived title |
| HistoryStore.SavedEntry | app.py:58-62 | the saved entry holds exactly the conversation, the timestamp of `now` and the chosen title |
| HistoryStore.AfterSave | app.py:54-66 | after a save whose load and write succeed, the key holds the new entry, every other key is unchanged, the keys grow by at most that key; a failed load or write leaves the file as it was |
| HistoryStore.SaveThenLoad | app.py:57-64 | loading after a save returns the saved conversation, in order, with the save's timestamp |
| HistoryStore.SaveDiscardsUnparsable | app.py:45-64 | saving over a missing or malformed file leaves a table with the one saved chat |
| HistoryStore.SaveTwice | app.py:57-64 | saving the same chat twice leaves what the second save alone would leave |
| HistoryStore.HistoryFile.SaveChatHistory | app.py:54-66 | the method loads, sets the entry and writes back, leaving the file as `AfterSave` says |
| ContentExtractor.Classify | app.py:243-266 | each of the six recognised media types selects its own branch; the two spreadsheet types share one |
| ContentExtractor.JoinLines | app.py:248-254 | `content += piece + "\n"` from `""`: empty exactly when there are no pieces, and otherwise ending with a newline |
| ContentExtractor.JoinLinesLength | app.py:248-254 | the appended text is as long as the pieces together plus one per piece |
| ContentExtractor.JoinLinesCons | app.py:248-254 | the appended text is the first piece, a newline, then the rest appended |
| ContentExtractor.SplitJoinLines | app.py:248-254 | when no piece holds a newline, cutting the text at newlines gives back exactly the pieces |
| ContentExtractor.PageTexts | app.py:248-249 | all page texts are available exactly when no page's extraction raises, and then they are the pages' texts in order |
| ContentExtractor.FileContent | app.py:240-270 | the result is `None` exactly when the selected library raises; an unrecognised type gives `""`; PDF and document text is exactly the page or paragraph texts in order, each followed by a newline, so as long as the pieces plus one per piece; plain text, spreadsheet and CSV give exactly the decoded or rendered text |
| ContentExtractor.ReadFileContent | app.py:240-270 | the loops over pages and paragraphs compute exactly `FileContent` |
| Sidebar.Key | app.py:326 | the sort key `x[1]['timestamp']` is the entry's timestamp string |
| Sidebar.InsertNewestFirst | app.py:324-328 | inserting into a newest-first list keeps it newest first and adds exactly the one item |
| Sidebar.SortNewestFirst | app.py:324-328 | the sorted list is a permutation of the listed entries with non-increasing timestamps |
| Sidebar.SortStable | app.py:324-328 | entries with the same timestamp keep the order they were listed in |
| Sidebar.NewestFirstIsChronological | app.py:324-328 | when the timestamps were written from clock readings, no entry is listed before one with a later clock reading |
| Session.ChatSession.constructor | app.py:275-280 | a first run starts with a clock-derived chat identifier, no conversation, counter 0 |
| Session.ChatSession.NewChat | app.py:234-238 | an identifier made from the clock reading `now`, an empty conversation and counter 0, nothing else changed |
| Session.ChatSession.StartNewChat | app.py:313-318 | the new-chat button also drops the uploaded file's text |
| Session.ChatSession.AttachFile | app.py:298-301 | an upload's text becomes the context only when it is neither `None` nor empty |
| Session.ChatSession.OpenChat | app.py:335-338 | opening a saved chat makes it current with its stored conversation; the counter is kept |
| Session.ChatSession.Submit | app.py:363-376 | a non-empty input appends exactly one exchange (the input and the reply to it) at the end, saves the conversation under the current identifier and bumps the counter by one; an empty input changes nothing |

## Left out

- Page rendering: the styles, `display_conversation` and its HTML, the sidebar and its buttons,
  `st.error` messages and `st.rerun`. They draw the page and compute nothing the model keeps. The
  `'</div>'` removal in `display_conversation` is single-pass and is not modelled at all.
- The model call: `genai.configure`, the SSL override and `generate_content` are network calls;
  the model is the parameter `generate`, any function from prompt to text or failure.
- File input and output and JSON: `open`, `json.load` and `json.dump` are replaced by the `Disk`
  value. A JSON document that parses but is not a table of entries is not modelled.
- HistoryStore.AfterSave: a write that fails is modelled as leaving the file unchanged; a failure
  after the file was opened for writing, which would leave it truncated, is not modelled.
- HistoryStore.AfterSave: the date in a derived title and the timestamp come from one clock
  reading `now`; the script reads the clock twice, a moment apart.
- The libraries' own work (PyPDF2's `extract_text`, python-docx's paragraphs, pandas'
  `read_excel`, `read_csv` and `to_string`) and UTF-8 decoding are inputs, by their results.
- The clock and `strftime`: readings are parameters, limited to years 1000 to 9999, where `%Y`
  prints four digits on every platform.
- Sidebar.NewestFirstIsChronological: readings are naive local wall-clock times; when the clock is
  set back (end of daylight saving, a correction), a later save can carry an earlier reading, and
  the order proved is that of the readings, not of real time.
- Sidebar.SortNewestFirst: it sorts the table's items in the order they are listed; the order a
  Python dictionary keeps its keys in, which decides ties between equal timestamps, is not part of
  the `map` model. Formatting a timestamp as a button label (`strptime` and `%b %d`) is left out.
- Session: each method models one step on its own; the order in which one run of `main` takes
  these steps, and their composition across reruns, is not modelled. For instance, after the
  new-chat button drops the file's text, the next rerun attaches the still-uploaded file again.
- Session.ChatSession.NewChat: the identifier is the clock reading to the second and is not
  checked against the stored chats; two new chats in one second, or a clock set back, reuse a
  stored identifier, and the next save then replaces that stored chat.
- Session.ChatSession.constructor: it models the first run, where all three session keys are
  missing; each key's own initialisation when only some are missing is not modelled.
- Loading the histories for the sidebar when the file cannot be read raises and stops the script;
  this error path of `main` is not modelled.
- The `send_button or True` test: the trigger is modelled as "the input is non-empty", which is
  what the script's condition amounts to.
- The audio variant with transcription and speech synthesis is not part of this model.
