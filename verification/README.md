# Analytics chatbots — a verified model

This project models the decision logic of two small desktop chatbots.

The **financial-report bot** answers questions about annual reports kept in
a blob container. A press of "Ask" works in five steps:

- it turns the free-text "company year" field into report keys;
- it resolves each key to the first report name that contains it, ignoring case;
- it downloads each resolved report that is not cached yet, and extracts its text page by page;
- it builds one prompt holding a numbered block for every cached report;
- it shows the model's answer, or the error text when the call fails.

The **registry bot** answers questions about the search result for an entity
name at the Brønnøysund Register Centre. The first call with a question and
a name searches the register. It flattens the response into 15-column rows
and remembers them for the rest of the session. A question that asks to
"download" a "csv" on that call saves the rows instead of asking the model.
Every later question is answered from the remembered rows.

The model is functional. Sessions, JSON trees and rows are immutable
datatypes, and each press of "Ask" is a pure step function.

- The blob download, the registry search and the chat-completion service
  are function-typed oracle parameters. Each returns `Success(value)` or
  `Failure(message)`.
- Each step returns the lines it shows and the trace of external calls it
  made. That is how "no completion call" and "a cached report is never
  downloaded again" are stated.
- Python exceptions raised inside the flattening code (KeyError, TypeError,
  AttributeError) are `Failure` values. In the registry bot's handler they
  escape the callback and are recorded as `raised`.

Modules:

- **Wrappers:** `Option` and `Result`.
- **PyStr:** the Python `str` operations the bots use.
- **PyDict:** insertion-ordered dictionaries.
- **Json:** decoded JSON values, truthiness, and subscription with its exceptions.
- **PyRepr:** `str()` of the rows pasted into the registry prompt.
- **Completion:** the completion request and how its outcome becomes an answer string.
- **PdfText:** the page fold.
- **ReportKeys:** normalising and resolving.
- **ReportBot:** the session cache, the prompts, and `ask_question`.
- **Registry:** `extract_data` and the bulk-download URLs.
- **RegistryBot:** `chat_interaction`.

## Behaviour of the code worth knowing

- **Empty segments.** The emptiness test on a "company year" segment comes
  before stripping. A whitespace-only segment is kept and becomes the key
  ".pdf", which selects the first report whose name contains ".pdf".
- **Validation.** Input is rejected when the key list is empty or the
  question is empty.
- **Caching.** A report that downloaded successfully is cached and is never
  downloaded again in the same session. A report whose download failed is
  not cached, so the next question that asks for it downloads it again.
- **Unreadable documents.** A document that the PDF reader cannot open
  raises. The question then shows an "Error: ..." line.

## Model

| member | source | states |
|---|---|---|
| PyStr.Strip | Chatbots/financial_report_bot.py:156 | `strip()` returns the slice of the input between a leading and a trailing whitespace run, and the result neither starts nor ends with whitespace |
| PyStr.StripAllSpace | Chatbots/financial_report_bot.py:156 | a whitespace-only segment strips to the empty string |
| PyStr.Lower | Chatbots/financial_report_bot.py:156 | lowering keeps the length, leaves no upper-case letter, and changes only upper-case letters, each on its own |
| PyStr.StripLower | Chatbots/financial_report_bot.py:156 | stripping and lowering can be done in either order, because lowering never turns whitespace into non-whitespace or back |
| PyStr.ReplaceChar | Chatbots/financial_report_bot.py:156 | `replace(" ", "-")` keeps the length, leaves no space, and changes the spaces only |
| PyStr.Split | Chatbots/financial_report_bot.py:156 | `split(',')` yields at least one part, and no part holds a comma |
| PyStr.SplitLower | Chatbots/financial_report_bot.py:156 | lowering before splitting at commas gives the lowered parts of the split |
| PyStr.LowerIdempotent | Chatbots/financial_report_bot.py:156 | a lowered string holds no upper-case letter, and lowering twice equals lowering once |
| PyStr.ReplaceKeepsLower | Chatbots/financial_report_bot.py:156 | after the replacement no space is left, and a lower-case string stays lower-case |
| PyStr.JoinSplit | Chatbots/financial_report_bot.py:156 | `split(',')` loses nothing: joining the parts with the separator gives back the input |
| PyStr.SplitAppend | Chatbots/financial_report_bot.py:156 | splitting `a + ',' + b` splits `a` and `b` separately and concatenates the parts |
| PyStr.ContainsIff | Chatbots/financial_report_bot.py:165 | the substring test `key in name` holds exactly when the key occurs at some position of the name |
| PyStr.ParseNatToString | Chatbots/financial_report_bot.py:197 | the report number printed into a block reads back as the same number |
| PyDict.Put | Chatbots/financial_report_bot.py:177 | storing under a new key appends it after the existing entries, storing under an old key keeps the key order, and keys stay distinct |
| PyDict.PutGet | Chatbots/financial_report_bot.py:177 | after `report_texts[blob] = text` the blob maps to that text and every other key is untouched |
| Completion.Answer | Chatbots/financial_report_bot.py:201-216 | the caller receives the content when the service answers, and "Error with OpenAI API: " followed by the exception text when it fails |
| Completion.FailureMessageRecoverable | Chatbots/Breg_bot.py:271-273 | a failure answer is the prefix followed by the service's own message, which can be read back from it |
| PdfText.ExtractText | Chatbots/financial_report_bot.py:65-72 | extracted text is a single space followed by every page's text, in page order, with no separator |
| PdfText.AppendPagesIsConcat | Chatbots/financial_report_bot.py:70-71 | the accumulating loop equals appending the concatenation of all pages to the starting text |
| PdfText.ExtractTextAppendPage | Chatbots/financial_report_bot.py:70-72 | a further page only extends the text, and earlier pages' text is kept |
| ReportKeys.ReportKey | Chatbots/financial_report_bot.py:156 | every key ends in ".pdf", holds no space and is lower-case |
| ReportKeys.Normalise | Chatbots/financial_report_bot.py:156 | there is at most one key per comma-separated segment, each at least as long as ".pdf" |
| ReportKeys.NormaliseAppend | Chatbots/financial_report_bot.py:156 | keys keep input order: the keys of "a,b" are the keys of "a" followed by the keys of "b" |
| ReportKeys.NormaliseSegment | Chatbots/financial_report_bot.py:156 | a single non-empty segment yields exactly its own key |
| ReportKeys.WhitespaceSegmentKey | Chatbots/financial_report_bot.py:156 | a whitespace-only segment is kept (the emptiness test comes before stripping) and becomes ".pdf" |
| ReportKeys.NormaliseEmptyIff | Chatbots/financial_report_bot.py:156 | the input yields no key exactly when it consists of commas only, including the empty input |
| ReportKeys.FirstMatch | Chatbots/financial_report_bot.py:165 | `next(...)` finds the first name, in list order, whose lower-case form contains the key, or reports that none does |
| ReportKeys.ResolveKey | Chatbots/financial_report_bot.py:165-167 | a key contributes at most one name, a known one that it selects |
| ReportKeys.Resolve | Chatbots/financial_report_bot.py:163-167 | at most one match per key, every match a known report name |
| ReportKeys.ResolveKeyFirst | Chatbots/financial_report_bot.py:165-167 | a key that some name selects resolves to the first such name, and a key that none selects is dropped |
| ReportKeys.ResolveAppend | Chatbots/financial_report_bot.py:163-167 | matches follow key order, duplicates included: resolving `a + b` resolves `a`, then `b` |
| ReportKeys.ResolveEmptyIff | Chatbots/financial_report_bot.py:163-171 | nothing resolves exactly when no name selects any key |
| ReportKeys.CaseInsensitiveMatch | Chatbots/financial_report_bot.py:165 | a key selects a stored name exactly when it selects the name's lower-case form, so two names that differ only in case are selected by the same keys |
| ReportKeys.NormaliseIgnoresCase | Chatbots/financial_report_bot.py:156 | the case of the "company year" field plays no part: the lower-cased input yields the same keys as the input |
| ReportBot.Start | Chatbots/financial_report_bot.py:120-124 | a session starts with the listed report names and an empty, consistent cache |
| ReportBot.FreshInOrderSpec | Chatbots/financial_report_bot.py:175-176 | the reports to download are exactly the requested ones not yet cached, each once, ordered by first request |
| ReportBot.FetchMissing | Chatbots/financial_report_bot.py:173-178 | the loop keeps the report names, appends each download to `current_blobs`, caches only successful downloads, and reports the exception of the one that failed |
| ReportBot.Cache | Chatbots/financial_report_bot.py:177-178 | one download appends its name to `current_blobs` and its text as the dictionary's newest entry |
| ReportBot.FetchMissingKeepsCache | Chatbots/financial_report_bot.py:175-178 | the dictionary keys stay exactly `current_blobs`, and the dictionary gains one entry per downloaded report, holding its extracted text, after all it had |
| ReportBot.FetchMissingFollows | Chatbots/financial_report_bot.py:175-178 | the loop downloads all missing reports in order, or a prefix of them followed by the one whose download failed |
| ReportBot.LoopRunsThrough | Chatbots/financial_report_bot.py:175-178 | when every missing report downloads, the loop fetches all of them and does not stop |
| ReportBot.LoopStopsAtFirstFailure | Chatbots/financial_report_bot.py:173-187 | the loop stops exactly at the first missing report whose download fails, after fetching the ones before it |
| ReportBot.NothingMissing | Chatbots/financial_report_bot.py:175-176 | a loop over cached reports only downloads nothing and changes nothing |
| ReportBot.ReportBlocksPrefix | Chatbots/financial_report_bot.py:196-197 | a longer dictionary only adds blocks after the existing ones |
| ReportBot.ReportBlockAt | Chatbots/financial_report_bot.py:196-197 | the block numbered k+1 carries the k-th cached report's name and text, right after the blocks of the reports cached before it |
| ReportBot.ReportsPromptHoldsEveryReport | Chatbots/financial_report_bot.py:195-199 | the prompt starts with the fixed preamble, holds every cached report's numbered block in insertion order, and ends with the question |
| ReportBot.ReportsPrompt | Chatbots/financial_report_bot.py:195-199 | the prompt starts with the fixed preamble and ends with the question; with nothing cached it is only the two fixed texts around the question |
| ReportBot.AnalyzeReports | Chatbots/financial_report_bot.py:192-216 | the answer is the service's content for the prompt over the cached reports, or "Error with OpenAI API: " followed by the exception text |
| ReportBot.AskGpt4 | Chatbots/financial_report_bot.py:78-105 | the prompt is the fixed preamble, the context and the question, in that order; the answer is the content, or the prefixed error text |
| ReportBot.AskRejectsMissingInput | Chatbots/financial_report_bot.py:156-161 | comma-only input or an empty question shows the prompt-for-input message, with no call and no state change |
| ReportBot.AskNoMatch | Chatbots/financial_report_bot.py:163-171 | when no name selects any key, "No matching reports found." is shown, with no call and no state change |
| ReportBot.AskCallsIff | Chatbots/financial_report_bot.py:153-187 | a question makes external calls exactly when it passes validation and resolves at least one report |
| ReportBot.AskKeepsCache | Chatbots/financial_report_bot.py:173-187 | whatever happens, the cache never shrinks: old reports and texts are kept in order, the invariant holds, and the report names are untouched |
| ReportBot.AskDownloads | Chatbots/financial_report_bot.py:173-187 | the downloads a question makes are none before the loop, then the reports the loop fetched, then the failing one, if any |
| ReportBot.AskFetchesOnlyMissing | Chatbots/financial_report_bot.py:175-178 | a question downloads only requested reports that are not cached, none twice, in first-request order |
| ReportBot.AskSucceeds | Chatbots/financial_report_bot.py:173-185 | when every download succeeds, the cache grows by exactly the new reports in order, and the single completion call asks about ALL cached reports |
| ReportBot.AskFetchFails | Chatbots/financial_report_bot.py:173-187 | when the k-th new download fails, the k reports before it stay cached, the exception text is the last line, and the model is not called |
| ReportBot.AskCachedFetchesNothing | Chatbots/financial_report_bot.py:175-185 | asking about reports that are all cached downloads nothing and leaves the session as it was |
| ReportBot.AskQuestion | Chatbots/financial_report_bot.py:153-190 | a question never changes the report names and only extends `current_blobs`; a reply with no external call changes nothing and shows only the prompt-for-input or the no-match message; any change to the session came with more calls than reports it cached |
| ReportBot.CachedNeverRefetched | Chatbots/financial_report_bot.py:175-178 | a report cached before or by one question is never downloaded by the next question |
| ReportBot.FailedReportRetried | Chatbots/financial_report_bot.py:173-187 | a report whose download failed is not cached, so asking the same question again downloads it, and caches it when that download succeeds |
| Json.Index | Chatbots/Breg_bot.py:203 | `obj[key]` succeeds exactly on a dictionary holding the key; a missing key raises KeyError |
| Json.GetOr | Chatbots/Breg_bot.py:207-221 | `obj.get(key, default)` succeeds exactly on a dictionary, giving the stored value or the default |
| Json.StringItems | Chatbots/Breg_bot.py:212 | `', '.join` draws a list's items (all of which must be strings), a string's characters, or a dictionary's keys; anything else raises TypeError |
| Registry.FormatSuffix | Chatbots/Breg_bot.py:72-75 | "csv" appends "/csv", "xlsx" appends "/regneark", and every other format appends nothing |
| Registry.DownloadUrl | Chatbots/Breg_bot.py:92-99 | the URL always starts with the listing's `lastned` URL |
| Registry.DownloadUrlInjective | Chatbots/Breg_bot.py:69-99 | two downloads request the same URL exactly when they are for the same listing and their formats fall in the same class |
| Registry.Iterate | Chatbots/Breg_bot.py:205 | `for entity in entities` draws list items, string characters or dictionary keys, and raises TypeError on anything else |
| Registry.EntitiesOf | Chatbots/Breg_bot.py:203-205 | a dictionary response without `_embedded` raises KeyError naming it; a listing that is a list yields its items; any success went through both subscriptions and the iteration |
| Registry.Flatten | Chatbots/Breg_bot.py:206-222 | a flattened entity always has exactly the 15 columns |
| Registry.FlattenAll | Chatbots/Breg_bot.py:204-224 | on success there is one row per entity, in order; on failure some entity fails to flatten |
| Registry.ExtractData | Chatbots/Breg_bot.py:199-224 | a falsy response gives no rows, and every row has the same 15 columns |
| Registry.StringItemsJoinable | Chatbots/Breg_bot.py:212 | a list of strings, a string or a dictionary is joined from its items, characters or keys |
| Registry.FlattenWellFormed | Chatbots/Breg_bot.py:206-222 | a well-formed entity flattens without raising, to the row stated column by column |
| Registry.FlattenTopFields | Chatbots/Breg_bot.py:206-221 | looked up by name, each of the eight top-level columns (`organisasjonsnummer`, `navn`, `registreringsdatoEnhetsregisteret`, `epostadresse`, `telefon`, `hjemmeside`, `stiftelsesdato`, `sisteInnsendteAarsregnskap`) holds the entity's own field, or `''` when the entity lacks it |
| Registry.FlattenOfficeFields | Chatbots/Breg_bot.py:213-216 | looked up by name, `postnummer`, `poststed`, `kommune` and `kommunenummer` hold the business address's fields, or `''` when the address or the field is absent |
| Registry.FlattenNestedFields | Chatbots/Breg_bot.py:209-212 | looked up by name, `organisasjonsform` and `naeringskode1` hold their nested `beskrivelse`, or `''`, and `forretningsadresse` holds the address lines joined with ", " |
| Registry.FlattenIllFormed | Chatbots/Breg_bot.py:206-222 | an entity that is not a dictionary, has a non-dictionary nested field, or has unjoinable address lines raises |
| Registry.ExtractDataRows | Chatbots/Breg_bot.py:203-224 | extraction succeeds exactly when `_embedded.enheter` can be reached and iterated and every entity is well formed; the rows then match the entities one to one, in order |
| Registry.FlattenAllStops | Chatbots/Breg_bot.py:205-223 | one entity that fails to flatten makes the whole extraction raise |
| Registry.MissingAddressIsBlank | Chatbots/Breg_bot.py:212 | an absent or empty address list gives an empty `forretningsadresse` cell |
| PyRepr.QuoteFor | Chatbots/Breg_bot.py:253 | `repr` switches to double quotes exactly for strings holding a single quote and no double quote |
| PyRepr.EscapeChar | Chatbots/Breg_bot.py:253 | a character is written as itself, or as an escape starting with a backslash |
| PyRepr.ReprStr | Chatbots/Breg_bot.py:253 | a string literal opens and closes with the chosen quote |
| PyRepr.UnescapeEscape | Chatbots/Breg_bot.py:253 | escaping loses nothing: the literal body reads back as the original string |
| PyRepr.ReadReprStr | Chatbots/Breg_bot.py:253 | the literal `repr` writes for a string reads back as that string |
| PyRepr.Repr | Chatbots/Breg_bot.py:253 | `str()` of a string value is a literal that reads back as the string; lists are printed in brackets and dictionaries in braces |
| PyRepr.ReprSingleLine | Chatbots/Breg_bot.py:253 | `str()` of the rows holds no newline, however nested |
| RegistryBot.PromptLines | Chatbots/Breg_bot.py:253 | line by line, the prompt is the register heading, a blank line, the rows on one line, a blank line, and the question line |
| RegistryBot.RegistryPrompt | Chatbots/Breg_bot.py:253 | the prompt is the register heading and a blank line, then exactly the printed rows, then a blank line and the question line |
| RegistryBot.AskAzure | Chatbots/Breg_bot.py:247-273 | the answer is the service's content for the prompt over the rows, or "Error with OpenAI API: " followed by the exception text |
| RegistryBot.CsvRequestedIff | Chatbots/Breg_bot.py:309 | the export is asked for exactly when "download" and "csv" both occur in the lower-cased question; questions that differ only in case agree |
| RegistryBot.SaveCsv | Chatbots/Breg_bot.py:227-239 | nothing is written for an empty result; otherwise one file under the given name holds every row, and for flattened rows its header is the fifteen columns in order |
| RegistryBot.FirstFetch | Chatbots/Breg_bot.py:292-313 | the first call searches by the entered name before anything else; the data is cached exactly when the search succeeds and its response flattens; an escaping exception changes nothing and shows nothing |
| RegistryBot.ChatInteraction | Chatbots/Breg_bot.py:278-326 | once data is cached a call never changes it and raises nothing; an escaping exception leaves the state as it was; a call without external calls shows one line and changes nothing; the only change ever made is caching the first data |
| RegistryBot.QuestionRequired | Chatbots/Breg_bot.py:287-289 | an empty question shows "Please enter a question." and nothing else happens |
| RegistryBot.EntityRequired | Chatbots/Breg_bot.py:292-296 | while nothing is cached, an empty entity name shows "Please enter an entity name." and nothing else happens |
| RegistryBot.SearchesOnlyUncached | Chatbots/Breg_bot.py:292-299 | the register is searched at most once per call, by the entered name, and only while nothing is cached |
| RegistryBot.CachedIff | Chatbots/Breg_bot.py:292-306 | data becomes cached exactly on a call with a question and a name whose search succeeds and flattens; once cached it never changes |
| RegistryBot.FailedSearchRetries | Chatbots/Breg_bot.py:299-303 | a failed or empty search leaves nothing cached, so the next call with a question and a name searches again |
| RegistryBot.CachedIgnoresEntity | Chatbots/Breg_bot.py:292-293 | once data is cached, neither the entity name nor the search affects the outcome |
| RegistryBot.CsvExport | Chatbots/Breg_bot.py:305-313 | the export message appears exactly on the caching call whose lower-cased question contains "download" and "csv"; that call saves the rows, keeps them cached, and asks the model nothing |
| RegistryBot.AskedIff | Chatbots/Breg_bot.py:309-320 | the model is asked exactly when there is a question, data is cached or fetched now, and the call is not the export; the prompt holds the cached rows and the question |
| RegistryBot.EmptyExportWritesNothing | Chatbots/Breg_bot.py:227-231 | exporting an empty result still shows the download message, although no file is written |
| RegistryBot.MissingEmbeddedRaises | Chatbots/Breg_bot.py:203 | a truthy response without `_embedded` raises KeyError and leaves nothing cached |

## Left out

- The Tk windows, widgets, clearing the question field and scrolling are left out, because they are user interface; the transcript is modelled as the list of lines a step shows.
- HTTP requests and the status handling in `_get` are oracles: the registry search returns the decoded response, `None` for a non-200 status, or the text of the raised exception.
- Blob listing and download are oracles too, and so is the local copy of each PDF: the fetcher returns the page texts of a report or the exception text.
- PDF parsing is foreign code: a document is the sequence of its page texts.
- CSV and PDF file writing is filesystem I/O. The CSV export is recorded as a call carrying the file name, header and rows, and write failures are not modelled.
- The hard-coded credentials, the environment variables and the API version are configuration only.
- The sampling temperature 0.3 is a float constant and is not part of the modelled request.
- The registry endpoint methods other than the two bulk downloads are one-line constant URLs, and the search URL and its query parameters are inside the search oracle.
- The start-up printout of the blob names is console output, and so are the status-code message of `_get` (Chatbots/Breg_bot.py:195) and the two messages of `save_to_csv` (Chatbots/Breg_bot.py:230 and 241).
- ReportBot.AskGpt4: the function is never called by either window; it is modelled for its prompt and error format only.
- PyStr.Lower: only the Latin-1 letters (below U+0100) are lowered, because Python's full Unicode case mapping is a large table outside this model.
- PyStr.Strip: only the Latin-1 whitespace characters count as whitespace, for the same reason.
- PyRepr.EscapeChar: the escaping rules cover characters below U+0100; `repr`'s handling of non-printable characters above that is not modelled.
- JSON numbers are integers, so JSON floats are left out; objects hold each key once, as `json.loads` keeps only the last duplicate.
- Completion.Answer: a response whose content is `None` is not modelled; the oracle returns a string or an error.
