# Session memory, context assembly, dialect and login helpers of an autism-support chat assistant

This project models the computing core of a retrieval-augmented chat
assistant and proves properties of the model.

- **Session memory** (`memory_manager.py`). A `MemoryManager` keeps one
  record per chat session. Each record has a window of `recent` messages
  and an append-only list of `packed` summary blocks. Adding a message
  that makes the window longer than `max_recent` moves the oldest messages
  into one new summary block. `find_recent_match` scans the window newest
  first for a repeated question that was already answered.
  `search_packed` returns the best-scoring summary when it scores above
  0.7. When the summarizer fails, the summary falls back to the first 400
  characters of the text.
- **Context assembly** (`chat.py`). `compose_context` labels each
  retrieved chunk with its source. It emits the labelled segments in
  order while their summed length stays within a cap (12000 by default).
  The canned-response loop returns the answer of the first table key that
  occurs in the lower-cased, stripped query.
- **Lebanese dialect** (`utils/dialect.py`). A table of romanized tokens
  with English glosses. `detect_leb_chat` asks whether some token occurs
  in the lower-cased text. `normalize_for_embedding` replaces each token,
  in lower-case and Capitalized form, by its gloss.
- **Login helpers** (`user_login.py`). `generate_user_id` allocates one
  past the largest parseable id, formats it as `{:04d}`, and refuses ids
  past 9999. `get_user_by_name` finds the first record whose
  stripped, lower-cased name equals the stripped, lower-cased query.

Modules:

- `Wrappers`: `Option` and `Result`.
- `Text`: the Python `str` operations used.
- `Memory`: the session store, modelled as a class with a map field.
- `Chat`
- `Dialect`
- `UserLogin`

Most loops of the source are methods with loop invariants:
`compose_context`, the canned-response loop, `normalize_for_embedding`,
`generate_user_id`, `find_recent_match` and `search_packed`. Each of
these methods is proved equal to a specification function, or states its
result outright. The properties are then proved as lemmas about that
function. Three loops are modelled as recursive functions instead,
because they only compute a value:

- the early-return `for` of `get_user_by_name` is `GetUserByName`;
- the `any(...)` of `detect_leb_chat` is `AnyTokenIn`;
- the list comprehension that renders messages in `_pack_old_messages` is
  a sequence comprehension inside `Render`.

`MemoryManager` is a class whose methods update its `sessions` map. Of
them, `AddMessage` and `PackOldMessages` are proved against the functions
`Append` and `Pack`. `CreateSession` states its new map directly.

Some outside effects become parameters:

- The clock becomes a `now` argument.
- `uuid4` becomes the choice of any key not yet in the store.
- The summarization call becomes an oracle that may fail.
- `SequenceMatcher.ratio()` becomes an arbitrary similarity function into [0, 1].
- The user directory and the canned-response table are passed in as sequences.

Two code behaviours are easy to misread, and the model follows the code in both:

- `find_recent_match` does not stop at the first similar user message. When
  that message has no assistant reply after it, the scan continues to older
  messages (`UnansweredMatchIsSkipped`).
- The reply is looked up after the FIRST equal copy of the message
  (`list.index`), not after the copy that matched (`RepeatedQuestionGetsOldestReply`).

## Model

| member | source | states |
|---|---|---|
| Memory.SummarizeText | memory_manager.py:31-48 | the oracle's summary when the call succeeds; when it fails, a prefix of the text of length min(len, 400) |
| Memory.Render | memory_manager.py:139 | no messages render as the empty string; one message renders as `role: content` |
| Memory.RenderAppend | memory_manager.py:139 | rendering two non-empty runs of messages puts exactly one newline between their renderings |
| Memory.DropLast | memory_manager.py:138 | `s[:-k]` is empty for k = 0, otherwise has max(0, len-k) elements, and is always a prefix of `s` |
| Memory.LastOf | memory_manager.py:148 | `s[-k:]` is the whole list for k = 0, otherwise its last min(k, len) elements |
| Memory.SplitLast | memory_manager.py:138-148 | the summarized overflow followed by the kept window is exactly the old window |
| Memory.LastOfAppend | memory_manager.py:92-148 | keeping the last k, appending, and keeping the last k again equals keeping the last k of the whole |
| Memory.Pack | memory_manager.py:133-148 | no change when the window is within capacity; otherwise the window becomes its last `max_recent` messages and exactly one block is appended, holding the summary of the rendered overflow and the current time; the owner and creation time are unchanged |
| Memory.Append | memory_manager.py:90-96 | for a positive capacity the window is the last `max_recent` of old window plus message; old blocks are kept; one block is added exactly when the window overflowed, summarizing the overflow; with capacity 0 the window keeps growing and every block summarizes "" |
| Memory.AppendConserves | memory_manager.py:90-148 | no message is lost or duplicated: the overflow followed by the new window is the old window plus the new message |
| Memory.AppendAllWindow | memory_manager.py:90-98 | after any run of additions to a bounded window, the window is the last `max_recent` of all messages, in order |
| Memory.AppendAllPacked | memory_manager.py:90-98 | after any run of additions, the old blocks are a prefix of the new list, and one block was added per message beyond capacity |
| Memory.Score | memory_manager.py:107 | the score of the lower-cased texts lies in [0, 1] |
| Memory.IndexOf | memory_manager.py:109 | `list.index`: a position holding the message, with no equal message before it |
| Memory.RecentMatch | memory_manager.py:103-112 | what `find_recent_match` returns for a window; `RecentMatchBelowSpec` shows it is the reply after the newest answering user message, or nothing |
| Memory.RecentMatchBelowSpec | memory_manager.py:103-112 | the reverse scan returns no reply when no position answers, and otherwise the reply after the newest answering position |
| Memory.RepeatedQuestionGetsOldestReply | memory_manager.py:105-111 | a question asked twice gets the reply that followed its first copy |
| Memory.UnansweredMatchIsSkipped | memory_manager.py:105-112 | a similar question with no reply after it does not stop the scan from finding an older answered one |
| Memory.BestBelow | memory_manager.py:119-125 | the best-score scan picks the first block with the highest positive score, or nothing when every score is 0 |
| Memory.PackedMatch | memory_manager.py:117-128 | a summary is returned exactly when some block scores above 0.7, and it is the first block with the highest score |
| Memory.TieGoesToEarlierBlock | memory_manager.py:123-127 | of two blocks tying above 0.7, the earlier one is returned |
| Memory.MemoryManager.constructor | memory_manager.py:53-67 | the store starts with the given capacity (5 by default) and the loaded sessions |
| Memory.MemoryManager.CreateSession | memory_manager.py:76-85 | the new id was not in the store; only that key is added, with an empty record for the user; bounded windows stay bounded |
| Memory.MemoryManager.AddMessage | memory_manager.py:90-98 | an unknown id raises and changes nothing; otherwise only that session changes, to `Append` of it; its window stays within capacity; bounded windows stay bounded |
| Memory.MemoryManager.PackOldMessages | memory_manager.py:133-148 | only the given session changes, to `Pack` of it |
| Memory.MemoryManager.FindRecentMatch | memory_manager.py:103-112 | an unknown id raises; otherwise the loop returns `RecentMatch` of the window, with the threshold 0.85 by default |
| Memory.MemoryManager.SearchPacked | memory_manager.py:117-128 | an unknown id raises; otherwise the loop returns `PackedMatch` of the blocks |
| Chat.SourceLabel | chat.py:49 | the `"file"` entry, else the `"source"` entry, else `"kb"`; `Segments` and `ComposeContext` give the segments it labels |
| Chat.Segment | chat.py:49-50 | one labelled excerpt; `Segments` and `FitCountSpec` state how the segments are kept |
| Chat.Segments | chat.py:48-50 | one labelled segment per pair, stopping at the shorter of the two lists |
| Chat.FitCountSpec | chat.py:47-54 | the kept segments sum to at most the cap, and the next segment, if any, would have exceeded it |
| Chat.ComposeContext | chat.py:42-55 | the loop returns the newline-joined longest prefix of segments that fits under the cap (12000 by default) |
| Chat.ComposedContextLength | chat.py:42-55 | the segment lengths stay within the cap, but the result's length also counts one separator between each pair of segments |
| Chat.FirstOverflowGivesEmpty | chat.py:51-52 | when the first segment alone overflows, the context is empty whatever follows |
| Chat.SeparatorExceedsCap | chat.py:51-55 | two segments that exactly fill a cap of 42 give a 43-character context |
| Chat.NormalizeQuery | chat.py:77 | the normalized query has no upper-case letter and neither starts nor ends with whitespace |
| Chat.DemoLookup | chat.py:77-96 | no response exactly when no key occurs in the normalized query; otherwise the response of the first key in table order that occurs |
| Dialect.LebPatternsWellFormed | utils/dialect.py:1-11 | every token is non-empty, with a lower-case letter after its first character |
| Dialect.RewriteAll | utils/dialect.py:17-20 | the table's replacements applied in order; `RewriteAllSkipsAbsent`, `TokenBecomesGloss`, `RewriteAllWithoutTokens` and `UpperCaseNotRewritten` state what it does |
| Dialect.NormalizeForEmbedding | utils/dialect.py:13-20 | the loop applies each pair's two replacements in table order, each to the previous output |
| Dialect.RewriteAllSkipsAbsent | utils/dialect.py:17-20 | tokens that do not occur in the text leave it alone: the rewrite is decided from the first token that is present |
| Dialect.TokenBecomesGloss | utils/dialect.py:13-20 | a message that is exactly one token is rewritten to that token's gloss, when no earlier token occurs in it and no later token, nor its own Capitalized form, occurs in the gloss |
| Dialect.KeefBecomesHow | utils/dialect.py:1-20 | the message "keef" is normalized to "how" |
| Dialect.RewriteAllWithoutTokens | utils/dialect.py:17-20 | text holding no token, in lower-case or Capitalized form, comes back unchanged |
| Dialect.UpperCaseNotRewritten | utils/dialect.py:18-19 | text without lower-case letters (say all capitals) is never rewritten |
| Dialect.AnyTokenIn | utils/dialect.py:24 | true exactly when some token of the table occurs in the text |
| Dialect.DetectLebChat | utils/dialect.py:22-24 | true exactly when some token occurs in the lower-cased text |
| Dialect.EmptyIsNotDialect | utils/dialect.py:22-24 | the empty message is not dialect |
| Dialect.ShoutedTokenDetectedNotRewritten | utils/dialect.py:13-24 | "KEEF" is detected as dialect, yet normalization leaves it unchanged |
| Text.Lower | utils/dialect.py:23 | same length; no upper-case letter is left; every other character is kept |
| Text.Capitalize | utils/dialect.py:19 | same length; the first character is not a lower-case letter and no later one is upper-case |
| Text.Strip | user_login.py:44 | the result neither starts nor ends with whitespace; text without whitespace is unchanged |
| Text.StripIsSlice | user_login.py:44 | `strip()` removes whitespace from either end and nothing else: the result is a slice of the text with only whitespace outside it |
| Text.StripLower | user_login.py:44 | stripping and lower-casing commute |
| Text.StripLeadingSpace | user_login.py:44 | a leading whitespace character does not survive `strip()` |
| Text.StripTrailingSpace | user_login.py:44 | a trailing whitespace character does not survive `strip()` |
| Text.StripLeadingSpaces | user_login.py:44 | leading whitespace of any length does not survive `strip()` |
| Text.StripTrailingSpaces | user_login.py:44 | trailing whitespace of any length does not survive `strip()` |
| Text.Contains | utils/dialect.py:24 | `p in s` holds exactly when `p` occurs at some position of `s` |
| Text.Replace | utils/dialect.py:19 | text without an occurrence of the pattern is unchanged |
| Text.ReplaceFirstOccurrence | utils/dialect.py:19 | the first occurrence is replaced, the text before it is kept, and the rest after it is rewritten the same way |
| Text.ReplaceWhole | utils/dialect.py:19 | text equal to the pattern becomes the replacement |
| Text.Join | chat.py:55 | joining nothing gives ""; one part gives that part; the length is the parts' lengths plus one separator between each pair |
| Text.JoinAppend | chat.py:55 | joining two non-empty runs puts one separator between the two joins |
| UserLogin.ParseInt | user_login.py:28 | `int()` on a string; `ParseDigits`, `ParseNegative` and `FormatRoundTrip` give its value on digit strings and formatted ids |
| UserLogin.ZeroPad | user_login.py:35 | padded to the width, the original text is the tail, and everything before it is `'0'` |
| UserLogin.Format04 | user_login.py:35 | `{:04d}` is at least four characters, starts with `-` exactly for a negative number, and is digits after the first character |
| UserLogin.Decimal | user_login.py:35 | `str(n)` is a non-empty string of digits |
| UserLogin.DecimalValue | user_login.py:35 | `str(n)` reads back as `n` |
| UserLogin.PaddedValue | user_login.py:35 | zero-padding a decimal keeps it a non-empty digit string of the same value |
| UserLogin.ParseDigits | user_login.py:28 | `int()` reads a plain run of digits as its value |
| UserLogin.ParseNegative | user_login.py:28 | `int()` reads a minus sign followed by digits as the negated value |
| UserLogin.FormatRoundTrip | user_login.py:28-35 | every `{:04d}`-formatted integer, negative ones included, is read back by `int()` as the same number |
| UserLogin.FourDigitIds | user_login.py:31-35 | every id from 1000 to 9999 is formatted as exactly its four digits |
| UserLogin.IdOf | user_login.py:26-28 | the id a record contributes: a dict whose `"id"` `int()` accepts; `ParsedIds` collects exactly these |
| UserLogin.ParsedIds | user_login.py:23-30 | an id is collected exactly when some dict entry has an `"id"` that `int()` accepts |
| UserLogin.Max | user_login.py:31 | `max` of a non-empty list is an element, and no element exceeds it |
| UserLogin.NextId | user_login.py:31 | the next id is above every collected id; it is 1000 for none; otherwise it is one past a collected id |
| UserLogin.GenerateUserId | user_login.py:20-35 | refused with the limit error exactly when the next id exceeds 9999; otherwise the next id formatted `{:04d}` |
| UserLogin.AllocatedIdIsFresh | user_login.py:20-35 | an allocated id reads back as a number above every id in the directory |
| UserLogin.EmptyDirectoryStartsAt1000 | user_login.py:31-35 | an empty directory allocates "1000" |
| UserLogin.NameKeyShape | user_login.py:44 | the key has no upper-case letter and neither starts nor ends with whitespace |
| UserLogin.GetUserByName | user_login.py:38-46 | `get_user_by_name`; `GetUserByNameSpec` shows it returns the first record whose key matches, `None` if none does, and raises at an earlier record that cannot be compared |
| UserLogin.LookupSkips | user_login.py:43-45 | an entry with a different name hands the lookup to the rest of the directory |
| UserLogin.LookupStops | user_login.py:43-45 | an entry that is not passed over decides the lookup: it raises if it cannot be compared, and otherwise it matches and is returned |
| UserLogin.GetUserByNameSpec | user_login.py:38-46 | the lookup is decided by the first entry not passed over: none gives `None`, an entry without a string name raises, and otherwise that entry's record is returned |
| UserLogin.SameLowerSameKey | user_login.py:44 | names that differ only in letter case have the same key |
| UserLogin.SurroundingSpaceSameKey | user_login.py:44 | whitespace of any length around a name does not change its key |
| UserLogin.SameKeySameLookup | user_login.py:38-46 | queries with the same key get the same result |
| UserLogin.LookupIgnoresCaseAndSpaces | user_login.py:38-46 | queries that differ in letter case or in surrounding whitespace of any length find the same user, or raise alike |

## Left out

- Persistence (`load`/`save` of the JSON session file) is not modelled. The constructor takes the loaded sessions as a parameter. Every `save()` after a change is dropped.
- The OpenAI and BART summarization calls are replaced by an oracle parameter that may fail. The model does not capture their output length limits or the `.strip()` applied to the OpenAI answer.
- `difflib.SequenceMatcher.ratio()` is not modelled. The similarity is any function into [0, 1].
- `uuid.uuid4()` and `datetime.now()` are not modelled. The session id is any fresh key, and the time stamp is a parameter.
- Memory.MemoryManager.constructor: a negative `max_recent` is not modelled, because the capacity is a `nat`.
- Text.Lower: only ASCII letters are case-mapped, not the full Unicode case mapping of `str.lower()`. The same limitation applies to `Text.Capitalize`.
- UserLogin.ParseInt: `int()` is modelled on ASCII digits with an optional sign and surrounding whitespace. Underscores between digits and non-ASCII digits are not accepted.
- UserLogin.Value: metadata values are strings or integers only. `int()` on floats and booleans, and `.strip()` on floats, are not modelled.
- The ChromaDB collection (`get_user_collection`, `collection.get`) is not modelled. The directory is the sequence of its metadata entries. An empty result or a missing `"metadatas"` field is an empty directory. For `get_user_by_name` (user_login.py:41-42), a `"metadatas"` value of `None` is an empty directory too.
- UserLogin.GenerateUserId: a `"metadatas"` value of `None` is not modelled. There `for meta in all_data["metadatas"]` (user_login.py:25) raises `TypeError`. The model takes a list of entries, so it has no such error.
- The `DEMO_RESPONSES` table (`demo_answers.py`) is a parameter, in insertion order. The output it drives is not modelled: Streamlit chat bubbles, history appends, images, the 3-second `time.sleep` and `st.stop()`.
- The Streamlit UI, the `login_page` flow, image-tag rendering, embedding and retrieval calls, distance filtering and the GPT chat call in `chat.py` are I/O and are not modelled.
- `fill_db.py` is not part of this model.
