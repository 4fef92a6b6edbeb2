/** The registry chatbot's "Ask" handler. The handler remembers the
    flattened search result on itself the first time a search succeeds and
    never searches again; until then each call with a question and an entity
    name searches the register. A question asking to "download" a "csv" on
    that first call saves the rows instead of asking the model. The search
    and the model are oracles; every step returns the new state, the lines
    shown, the external calls made, and the exception that escaped, if any. */
module RegistryBot {
  import opened Wrappers
  import opened PyStr
  import opened PyDict
  import opened Json
  import opened Completion
  import opened PyRepr
  import opened Registry

  const AskForQuestion := "Bot: Please enter a question.\n\n"
  const AskForEntity := "Bot: Please enter an entity name.\n\n"

  const RegisterName := "Brønnøysund Register Centre"
  const DataIntro := "The following is data from the "
  const DataHeading := DataIntro + RegisterName + ":"
  const QuestionHeading := "Answer the following question: "

  function NotRetrieved(entityName: string): string {
    "Bot: Could not retrieve data for " + entityName + " from brreg.\n\n"
  }

  function Downloaded(entityName: string): string {
    "Bot: Data for " + entityName + " has been downloaded in clean CSV format for Excel.\n\n"
  }

  function CsvFileName(entityName: string): string {
    entityName + "_entities_clean.csv"
  }

  /** The registry search by name: the decoded response (None for a
      non-200 status), or the text of the exception raised on the way. */
  type Searcher = string -> Result<Json, string>

  /** The handler's own attribute: absent until a search succeeds. */
  datatype ChatState = ChatState(brregData: Option<seq<Row>>)

  const Initial := ChatState(None)

  datatype Call =
    | Search(name: string)
    | WriteCsv(filename: string, header: seq<string>, rows: seq<Row>)
    | Complete(request: ChatRequest)

  /** An exception that leaves the handler. */
  datatype Escaped = SearchRaised(message: string) | DataRaised(error: PyError)

  datatype Turn = Turn(state: ChatState, lines: seq<string>, calls: seq<Call>, raised: Option<Escaped>)

  // ---------------------------------------------------------------------
  // Prompt and answer

  /** The rows as the Python value the prompt prints: a list of dictionaries. */
  function RowsValue(rows: seq<Row>): Json {
    JArr(seq(|rows|, i requires 0 <= i < |rows| => JObj(rows[i])))
  }

  /** The prompt of `ask_azure_openai`: the register heading first, the
      question last, the printed rows in between. */
  function RegistryPrompt(rows: seq<Row>, question: string): (p: string)
    ensures var head := DataHeading + "\n\n";
            var tail := "\n\n" + QuestionHeading + question;
            && |p| == |head| + |Repr(RowsValue(rows))| + |tail|
            && p[..|head|] == head
            && p[|head|..|p| - |tail|] == Repr(RowsValue(rows))
            && p[|p| - |tail|..] == tail
  {
    DataHeading + "\n\n" + Repr(RowsValue(rows)) + "\n\n" + QuestionHeading + question
  }

  /** Line by line, the prompt is the heading, a blank line, the rows on a
      single line, a blank line, and the question line. */
  lemma PromptLines(rows: seq<Row>, question: string)
    requires '\n' !in question
    ensures Split(RegistryPrompt(rows, question), '\n') ==
              [DataHeading, "", Repr(RowsValue(rows)), "", QuestionHeading + question]
  {
    var data := Repr(RowsValue(rows));
    ReprSingleLine(RowsValue(rows));
    HeadingsSingleLine();
    var last := QuestionHeading + question;
    var parts := [DataHeading, "", data, "", last];
    JoinFive(DataHeading, data, last, '\n');
    assert DataHeading + "\n\n" + data + "\n\n" + last == RegistryPrompt(rows, question);
    SplitJoin(parts, '\n');
  }

  lemma HeadingsSingleLine()
    ensures '\n' !in DataHeading && '\n' !in QuestionHeading
  {
    DataHeadingSingleLine();
    assert forall i :: 0 <= i < |QuestionHeading| ==> QuestionHeading[i] != '\n';
  }

  lemma DataHeadingSingleLine()
    ensures '\n' !in DataHeading
  {
    DataIntroSingleLine();
    RegisterNameSingleLine();
  }

  lemma DataIntroSingleLine()
    ensures '\n' !in DataIntro
  {
    assert forall i :: 0 <= i < |DataIntro| ==> DataIntro[i] != '\n';
  }

  lemma RegisterNameSingleLine()
    ensures '\n' !in RegisterName
  {
    assert forall i :: 0 <= i < |RegisterName| ==> RegisterName[i] != '\n';
  }

  lemma JoinFive(a: string, c: string, e: string, sep: char)
    ensures Join([a, "", c, "", e], [sep]) == a + [sep, sep] + c + [sep, sep] + e
  {
    var parts := [a, "", c, "", e];
    JoinCons(parts, [sep]);
    JoinCons(parts[1..], [sep]);
    JoinCons(parts[2..], [sep]);
    JoinCons(parts[3..], [sep]);
    assert parts[4..] == [e];
  }

  /** `ask_azure_openai`: the model's answer, or the error text. */
  function AskAzure(question: string, rows: seq<Row>, complete: Completer): (a: string)
    ensures var reply := complete(Request(RegistryPrompt(rows, question)));
            && (reply.Success? ==> a == reply.value)
            && (reply.Failure? ==> a == ErrorPrefix + reply.error)
  {
    Answer(complete, RegistryPrompt(rows, question))
  }

  /** Asks about the cached rows and shows the exchange. */
  function Respond(st: ChatState, question: string, complete: Completer, calls: seq<Call>): (t: Turn)
    requires st.brregData.Some?
    ensures t.state == st && t.raised.None?
    ensures t.calls == calls + [Complete(Request(RegistryPrompt(st.brregData.value, question)))]
    ensures t.lines == ["You: " + question + "\n", "Bot: " + AskAzure(question, st.brregData.value, complete) + "\n\n"]
  {
    var rows := st.brregData.value;
    Turn(st, ["You: " + question + "\n", "Bot: " + AskAzure(question, rows, complete) + "\n\n"],
         calls + [Complete(Request(RegistryPrompt(rows, question)))], None)
  }

  // ---------------------------------------------------------------------
  // The handler

  /** Whether the question asks for the CSV export (case-insensitive). */
  predicate CsvRequested(question: string) {
    Contains(Lower(question), "download") && Contains(Lower(question), "csv")
  }

  /** The export is asked for exactly when both words occur somewhere in the
      lower-cased question; questions that differ only in case agree. */
  lemma CsvRequestedIff(question: string, other: string)
    ensures CsvRequested(question) <==>
              (exists i :: OccursAt(Lower(question), "download", i))
              && (exists j :: OccursAt(Lower(question), "csv", j))
    ensures Lower(question) == Lower(other) ==> (CsvRequested(question) <==> CsvRequested(other))
    ensures CsvRequested(Lower(question)) <==> CsvRequested(question)
  {
    ContainsIff(Lower(question), "download");
    ContainsIff(Lower(question), "csv");
    LowerIdempotent(question);
  }

  /** `save_to_csv`: nothing is written for an empty result; otherwise one
      file under the given name holding every row, whose header is the
      first row's keys, which for flattened rows are the fifteen columns. */
  function SaveCsv(rows: seq<Row>, filename: string): (calls: seq<Call>)
    ensures calls == [] <==> rows == []
    ensures |calls| <= 1
    ensures forall c :: c in calls ==> c.WriteCsv? && c.filename == filename && c.rows == rows
    ensures rows != [] && (forall i :: 0 <= i < |rows| ==> Keys(rows[i]) == Columns) ==>
              calls == [WriteCsv(filename, Columns, rows)]
  {
    if |rows| == 0 then [] else [WriteCsv(filename, Keys(rows[0]), rows)]
  }

  /** The first search, for a non-empty question and entity name. */
  function FirstFetch(st: ChatState, question: string, entityName: string,
                      search: Searcher, complete: Completer): (t: Turn)
    requires st.brregData.None?
    ensures |t.calls| >= 1 && t.calls[0] == Search(entityName)
    ensures t.state.brregData.Some? <==> Fetches(entityName, search)
    ensures Fetches(entityName, search) ==> t.state.brregData == Some(ExtractData(search(entityName).value).value)
    ensures t.raised.Some? ==> t.state == st && t.lines == []
    ensures t.raised == None <==> search(entityName).Success?
                                  && (!Truthy(search(entityName).value) || ExtractData(search(entityName).value).Success?)
  {
    var searched := [Search(entityName)];
    match search(entityName)
    case Failure(msg) => Turn(st, [], searched, Some(SearchRaised(msg)))
    case Success(response) =>
      if !Truthy(response) then Turn(st, [NotRetrieved(entityName)], searched, None)
      else match ExtractData(response)
        case Failure(error) => Turn(st, [], searched, Some(DataRaised(error)))
        case Success(rows) =>
          var cached := ChatState(Some(rows));
          if CsvRequested(question) then
            Turn(cached, [Downloaded(entityName)], searched + SaveCsv(rows, CsvFileName(entityName)), None)
          else Respond(cached, question, complete, searched)
  }

  /** `chat_interaction`: one press of "Ask". */
  function ChatInteraction(st: ChatState, question: string, entityName: string,
                           search: Searcher, complete: Completer): (t: Turn)
    ensures st.brregData.Some? ==> t.state == st && t.raised.None?
    ensures t.raised.Some? ==> t.state == st
    ensures t.calls == [] ==> t.state == st && t.raised.None? && |t.lines| == 1
    ensures t.state != st ==> st.brregData.None? && t.state.brregData.Some?
  {
    if question == "" then Turn(st, [AskForQuestion], [], None)
    else if st.brregData.Some? then Respond(st, question, complete, [])
    else if entityName == "" then Turn(st, [AskForEntity], [], None)
    else FirstFetch(st, question, entityName, search, complete)
  }

  // ---------------------------------------------------------------------
  // Properties

  /** Whether the first search succeeds and its response flattens. */
  predicate Fetches(entityName: string, search: Searcher) {
    search(entityName).Success? && Truthy(search(entityName).value)
    && ExtractData(search(entityName).value).Success?
  }

  function Searches(calls: seq<Call>): seq<string>
    decreases |calls|
  {
    if |calls| == 0 then []
    else (if calls[0].Search? then [calls[0].name] else []) + Searches(calls[1..])
  }

  lemma {:induction false} SearchesAppend(a: seq<Call>, b: seq<Call>)
    ensures Searches(a + b) == Searches(a) + Searches(b)
    decreases |a|
  {
    if |a| == 0 {
      assert a + b == b;
    } else {
      assert a + b == [a[0]] + (a[1..] + b);
      assert a == [a[0]] + a[1..];
      SearchesCons(a[0], a[1..] + b);
      SearchesCons(a[0], a[1..]);
      SearchesAppend(a[1..], b);
    }
  }

  lemma SearchesCons(c: Call, rest: seq<Call>)
    ensures Searches([c] + rest) == (if c.Search? then [c.name] else []) + Searches(rest)
  {
    assert ([c] + rest)[1..] == rest;
  }

  /** An empty question is answered with a request for one, and nothing else
      happens. */
  lemma QuestionRequired(st: ChatState, entityName: string, search: Searcher, complete: Completer)
    ensures ChatInteraction(st, "", entityName, search, complete) == Turn(st, [AskForQuestion], [], None)
  {
  }

  /** While nothing is cached, an empty entity name is answered with a request
      for one, and nothing else happens. */
  lemma EntityRequired(st: ChatState, question: string, search: Searcher, complete: Completer)
    requires question != "" && st.brregData.None?
    ensures ChatInteraction(st, question, "", search, complete) == Turn(st, [AskForEntity], [], None)
  {
  }

  /** The register is searched at most once per call, by the entered name,
      and only while nothing is cached. */
  lemma SearchesOnlyUncached(st: ChatState, question: string, entityName: string,
                             search: Searcher, complete: Completer)
    ensures Searches(ChatInteraction(st, question, entityName, search, complete).calls) ==
              if question != "" && st.brregData.None? && entityName != "" then [entityName] else []
  {
    var t := ChatInteraction(st, question, entityName, search, complete);
    if question != "" && st.brregData.Some? {
      SearchesAppend([], [Complete(Request(RegistryPrompt(st.brregData.value, question)))]);
    } else if question != "" && entityName != "" {
      var searched := [Search(entityName)];
      assert Searches(searched) == [entityName];
      if Fetches(entityName, search) {
        var rows := ExtractData(search(entityName).value).value;
        if CsvRequested(question) {
          SearchesAppend(searched, SaveCsv(rows, CsvFileName(entityName)));
        } else {
          SearchesAppend(searched, [Complete(Request(RegistryPrompt(rows, question)))]);
        }
      }
    }
  }

  /** The data becomes cached exactly on a call with a question and an entity
      name whose search succeeds and flattens; once cached it never changes. */
  lemma CachedIff(st: ChatState, question: string, entityName: string,
                  search: Searcher, complete: Completer)
    ensures var t := ChatInteraction(st, question, entityName, search, complete);
            t.state.brregData.Some? <==>
              st.brregData.Some? || (question != "" && entityName != "" && Fetches(entityName, search))
    ensures st.brregData.Some? ==> ChatInteraction(st, question, entityName, search, complete).state == st
    ensures st.brregData.None? && question != "" && entityName != "" && Fetches(entityName, search) ==>
              ChatInteraction(st, question, entityName, search, complete).state
                == ChatState(Some(ExtractData(search(entityName).value).value))
  {
  }

  /** A failed or empty search leaves nothing cached, so the next call with a
      question and a name searches again. */
  lemma FailedSearchRetries(question: string, entityName: string, search: Searcher, complete: Completer,
                            question': string, entityName': string, search': Searcher)
    requires question != "" && entityName != "" && !Fetches(entityName, search)
    requires question' != "" && entityName' != ""
    ensures var t := ChatInteraction(Initial, question, entityName, search, complete);
            t.state == Initial
            && Searches(ChatInteraction(t.state, question', entityName', search', complete).calls) == [entityName']
  {
    CachedIff(Initial, question, entityName, search, complete);
    SearchesOnlyUncached(Initial, question', entityName', search', complete);
  }

  /** Once the data is cached, the entity name and the search play no part. */
  lemma CachedIgnoresEntity(st: ChatState, question: string, complete: Completer,
                            entityName: string, search: Searcher, entityName': string, search': Searcher)
    requires st.brregData.Some?
    ensures ChatInteraction(st, question, entityName, search, complete)
            == ChatInteraction(st, question, entityName', search', complete)
  {
  }

  /** The export message is shown exactly on the call that caches the data,
      when the question mentions both "download" and "csv"; that call asks
      the model nothing and keeps the data cached. */
  lemma CsvExport(st: ChatState, question: string, entityName: string,
                  search: Searcher, complete: Completer)
    ensures var t := ChatInteraction(st, question, entityName, search, complete);
            t.lines == [Downloaded(entityName)] <==>
              st.brregData.None? && question != "" && entityName != "" && Fetches(entityName, search)
              && CsvRequested(question)
    ensures var t := ChatInteraction(st, question, entityName, search, complete);
            t.lines == [Downloaded(entityName)] ==>
              var rows := ExtractData(search(entityName).value).value;
              t.state == ChatState(Some(rows)) && t.raised.None?
              && t.calls == [Search(entityName)] + SaveCsv(rows, CsvFileName(entityName))
  {
    DownloadedIsDistinct(entityName);
  }

  /** The export message differs from every other single line the handler
      shows. */
  lemma DownloadedIsDistinct(entityName: string)
    ensures AskForQuestion != Downloaded(entityName)
    ensures AskForEntity != Downloaded(entityName)
    ensures NotRetrieved(entityName) != Downloaded(entityName)
  {
    assert AskForQuestion[5] != Downloaded(entityName)[5];
    assert AskForEntity[5] != Downloaded(entityName)[5];
    assert NotRetrieved(entityName)[5] != Downloaded(entityName)[5];
  }

  /** The model is asked exactly when there is a question, data is available
      (cached before, or fetched now), and the call is not the export; the
      prompt holds the cached rows and the question, and the exchange is
      shown. */
  lemma AskedIff(st: ChatState, question: string, entityName: string,
                 search: Searcher, complete: Completer)
    ensures var t := ChatInteraction(st, question, entityName, search, complete);
            (|t.calls| > 0 && t.calls[|t.calls| - 1].Complete?) <==>
              question != "" &&
              (st.brregData.Some?
               || (entityName != "" && Fetches(entityName, search) && !CsvRequested(question)))
    ensures var t := ChatInteraction(st, question, entityName, search, complete);
            |t.calls| > 0 && t.calls[|t.calls| - 1].Complete? ==>
              t.state.brregData.Some? &&
              var rows := t.state.brregData.value;
              t.calls[|t.calls| - 1] == Complete(Request(RegistryPrompt(rows, question)))
              && t.lines == ["You: " + question + "\n", "Bot: " + AskAzure(question, rows, complete) + "\n\n"]
  {
    var t := ChatInteraction(st, question, entityName, search, complete);
    if question != "" && st.brregData.None? && entityName != "" && Fetches(entityName, search)
       && CsvRequested(question) {
      var rows := ExtractData(search(entityName).value).value;
      assert t.calls == [Search(entityName)] + SaveCsv(rows, CsvFileName(entityName));
    }
  }

  /** An export of an empty result still reports the download although no
      file is written. */
  lemma EmptyExportWritesNothing(question: string, entityName: string, search: Searcher, complete: Completer)
    requires question != "" && entityName != "" && Fetches(entityName, search) && CsvRequested(question)
    requires ExtractData(search(entityName).value).value == []
    ensures var t := ChatInteraction(Initial, question, entityName, search, complete);
            t.lines == [Downloaded(entityName)] && t.calls == [Search(entityName)]
  {
  }

  /** A response without `_embedded` raises KeyError and leaves nothing cached. */
  lemma MissingEmbeddedRaises(question: string, entityName: string, search: Searcher, complete: Completer)
    requires question != "" && entityName != ""
    requires search(entityName).Success?
    requires var response := search(entityName).value;
             response.JObj? && Truthy(response) && "_embedded" !in Keys(response.members)
    ensures var t := ChatInteraction(Initial, question, entityName, search, complete);
            t.state == Initial && t.lines == [] && t.raised == Some(DataRaised(KeyError("_embedded")))
  {
  }
}
