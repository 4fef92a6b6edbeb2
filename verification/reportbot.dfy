/** The financial-report chatbot's question handler. A session holds the
    known report names (listed once at start-up), the reports fetched so far
    in first-asked order, and their extracted texts in an insertion-ordered
    dictionary. One question normalises and resolves the requested reports,
    fetches every one not yet cached, and asks the model about ALL cached
    reports. Blob download and the model are oracles; every step returns the
    lines it shows and the external calls it made. */
module ReportBot {
  import opened Wrappers
  import opened PyStr
  import opened PyDict
  import opened Completion
  import opened PdfText
  import opened ReportKeys

  const PromptForInput := "Please enter at least one company name, year, and a question.\n\n"
  const NoMatch := "No matching reports found.\n\n"
  const Analyzing := "Analyzing reports...\n"

  const ReportsPreamble := "The following are summaries of annual reports:\n\n"
  const ReportsQuestionIntro := "Based on the above reports, please answer the following question:\n"

  const SummaryPreamble := "The following is a summary of a financial year-end report:\n\n"
  const SummaryQuestionIntro := "Based on the above information, please answer the following question:\n"

  /** Downloading a blob and reading its pages, or the text of the exception
      raised on the way. */
  type Fetcher = string -> Result<seq<string>, string>

  datatype Session = Session(reportNames: seq<string>, currentBlobs: seq<string>, reportTexts: Dict<string>)

  /** The cache invariant: the dictionary holds exactly the fetched reports,
      each once, in the order they were fetched. */
  predicate Valid(s: Session) {
    Keys(s.reportTexts) == s.currentBlobs && PyDict.Valid(s.reportTexts)
  }

  /** The window opens with the listed report names and an empty cache. */
  function Start(names: seq<string>): (s: Session)
    ensures Valid(s) && s.reportNames == names && s.currentBlobs == []
  {
    Session(names, [], Empty())
  }

  datatype Call = FetchBlob(name: string) | Complete(request: ChatRequest)

  datatype Reply = Reply(session: Session, lines: seq<string>, calls: seq<Call>)

  predicate IsPrefix<T(==)>(a: seq<T>, b: seq<T>) {
    |a| <= |b| && b[..|a|] == a
  }

  // ---------------------------------------------------------------------
  // At-most-once fetching

  /** The reports of `xs` not in `seen`, each once, in first-seen order: the
      reports a fetch loop over `xs` has to download. */
  function FreshInOrder(seen: seq<string>, xs: seq<string>): seq<string>
    decreases |xs|
  {
    if |xs| == 0 then []
    else if xs[0] in seen then FreshInOrder(seen, xs[1..])
    else [xs[0]] + FreshInOrder(seen + [xs[0]], xs[1..])
  }

  /** Index of the first occurrence of `x` in `xs`. */
  function FirstIndex(xs: seq<string>, x: string): (i: nat)
    requires x in xs
    ensures i < |xs| && xs[i] == x && x !in xs[..i]
    decreases |xs|
  {
    if xs[0] == x then 0 else 1 + FirstIndex(xs[1..], x)
  }

  /** `FreshInOrder` lists each new report once, exactly the reports of `xs`
      that were not seen, ordered by where they first occur in `xs`. */
  lemma {:induction false} FreshInOrderSpec(seen: seq<string>, xs: seq<string>)
    ensures Distinct(FreshInOrder(seen, xs))
    ensures forall x :: x in FreshInOrder(seen, xs) <==> x in xs && x !in seen
    ensures forall i, j :: 0 <= i < j < |FreshInOrder(seen, xs)| ==>
              FirstIndex(xs, FreshInOrder(seen, xs)[i]) < FirstIndex(xs, FreshInOrder(seen, xs)[j])
    decreases |xs|
  {
    if |xs| > 0 {
      var r := FreshInOrder(seen, xs);
      var x := xs[0];
      if x in seen {
        FreshInOrderSpec(seen, xs[1..]);
        assert r == FreshInOrder(seen, xs[1..]);
        forall y | y in r ensures FirstIndex(xs, y) == 1 + FirstIndex(xs[1..], y) {
          assert y != x;
        }
      } else {
        var t := FreshInOrder(seen + [x], xs[1..]);
        FreshInOrderSpec(seen + [x], xs[1..]);
        assert r == [x] + t;
        forall y | y in t ensures FirstIndex(xs, y) == 1 + FirstIndex(xs[1..], y) {
          assert y != x;
        }
        forall y ensures y in r <==> y in xs && y !in seen {
          if y in xs && y != x {
            assert y in xs[1..] by {
              var k := FirstIndex(xs, y);
              assert xs[1..][k - 1] == y;
            }
          }
        }
        forall i, j | 0 <= i < j < |r| ensures FirstIndex(xs, r[i]) < FirstIndex(xs, r[j]) {
          assert r[i] in r && r[j] in r;
          assert r[j] == t[j - 1];
          if i > 0 {
            assert r[i] == t[i - 1];
          }
        }
      }
    }
  }

  /** A failed download: the blob and the text of the exception. */
  datatype FetchFailure = FetchFailure(blob: string, message: string)

  /** The loop's effect: the blobs it fetched and cached, in order, the
      session after them, and the failure that stopped it, if any. */
  datatype FetchOutcome = FetchOutcome(session: Session, added: seq<string>, failed: Option<FetchFailure>)

  /** The dictionary entries the loop adds for `blobs`. */
  function NewEntries(blobs: seq<string>, fetch: Fetcher): Dict<string>
    requires forall i :: 0 <= i < |blobs| ==> fetch(blobs[i]).Success?
  {
    seq(|blobs|, i requires 0 <= i < |blobs| => Entry(blobs[i], ExtractText(fetch(blobs[i]).value)))
  }

  /** The download loop over the matched reports: a report is fetched only
      when it is not yet in `currentBlobs`, which also skips repeats within
      the same request. The first exception ends the loop; what was fetched
      before it stays cached. */
  function FetchMissing(s: Session, blobs: seq<string>, fetch: Fetcher): (o: FetchOutcome)
    ensures o.session.reportNames == s.reportNames
    ensures o.session.currentBlobs == s.currentBlobs + o.added
    ensures o.added == [] ==> o.session == s
    ensures forall i :: 0 <= i < |o.added| ==> fetch(o.added[i]).Success?
    ensures o.failed.Some? ==> fetch(o.failed.value.blob) == Failure(o.failed.value.message)
    decreases |blobs|
  {
    if |blobs| == 0 then FetchOutcome(s, [], None)
    else
      var b := blobs[0];
      if b in s.currentBlobs then FetchMissing(s, blobs[1..], fetch)
      else match fetch(b)
        case Failure(msg) => FetchOutcome(s, [], Some(FetchFailure(b, msg)))
        case Success(pages) =>
          var o := FetchMissing(Cache(s, b, ExtractText(pages)), blobs[1..], fetch);
          FetchOutcome(o.session, [b] + o.added, o.failed)
  }

  /** One successful download: the text is stored under the blob's name and
      the name is appended to `currentBlobs`. */
  function Cache(s: Session, blob: string, text: string): (s': Session)
    ensures s'.reportNames == s.reportNames
    ensures s'.currentBlobs == s.currentBlobs + [blob]
    ensures Valid(s) && blob !in s.currentBlobs ==>
              Valid(s') && s'.reportTexts == s.reportTexts + [Entry(blob, text)]
  {
    s.(reportTexts := Put(s.reportTexts, blob, text), currentBlobs := s.currentBlobs + [blob])
  }

  /** The loop keeps the cache invariant, and the dictionary gains exactly
      one entry per downloaded report, holding its extracted text, after all
      the entries it had. */
  lemma {:induction false} FetchMissingKeepsCache(s: Session, blobs: seq<string>, fetch: Fetcher)
    requires Valid(s)
    ensures KeepsCache(s, FetchMissing(s, blobs, fetch), fetch)
    decreases |blobs|
  {
    if |blobs| == 0 || (blobs[0] !in s.currentBlobs && fetch(blobs[0]).Failure?) {
      NothingAdded(s, FetchMissing(s, blobs, fetch), fetch);
    } else if blobs[0] in s.currentBlobs {
      FetchMissingKeepsCache(s, blobs[1..], fetch);
    } else {
      var s' := Cache(s, blobs[0], ExtractText(fetch(blobs[0]).value));
      FetchMissingKeepsCache(s', blobs[1..], fetch);
      FetchMissingStep(s, blobs, fetch);
      KeepsCacheStep(s, blobs[0], ExtractText(fetch(blobs[0]).value), FetchMissing(s', blobs[1..], fetch), fetch);
    }
  }

  /** What the loop promises about the dictionary: it stays a valid cache,
      and it gains one entry per downloaded report, after all it had. */
  predicate KeepsCache(s: Session, o: FetchOutcome, fetch: Fetcher) {
    && (forall i :: 0 <= i < |o.added| ==> fetch(o.added[i]).Success?)
    && Valid(o.session)
    && o.session.reportTexts == s.reportTexts + NewEntries(o.added, fetch)
  }

  lemma NothingAdded(s: Session, o: FetchOutcome, fetch: Fetcher)
    requires Valid(s) && o.added == [] && o.session == s
    ensures KeepsCache(s, o, fetch)
  {
    assert NewEntries([], fetch) == [];
  }

  /** Downloading `b` and then running the rest of the loop keeps the cache. */
  lemma KeepsCacheStep(s: Session, b: string, text: string, o': FetchOutcome, fetch: Fetcher)
    requires Valid(s) && b !in s.currentBlobs && fetch(b).Success? && text == ExtractText(fetch(b).value)
    requires KeepsCache(Cache(s, b, text), o', fetch)
    ensures KeepsCache(s, FetchOutcome(o'.session, [b] + o'.added, o'.failed), fetch)
  {
    var e := Entry(b, text);
    NewEntriesCons(b, o'.added, fetch);
    assert s.reportTexts + [e] + NewEntries(o'.added, fetch) == s.reportTexts + ([e] + NewEntries(o'.added, fetch));
  }

  /** One turn of the loop that downloads a report. */
  lemma FetchMissingStep(s: Session, blobs: seq<string>, fetch: Fetcher)
    requires |blobs| > 0 && blobs[0] !in s.currentBlobs && fetch(blobs[0]).Success?
    ensures var o' := FetchMissing(Cache(s, blobs[0], ExtractText(fetch(blobs[0]).value)), blobs[1..], fetch);
            FetchMissing(s, blobs, fetch) == FetchOutcome(o'.session, [blobs[0]] + o'.added, o'.failed)
  {
  }

  /** The loop walks the reports `FreshInOrder` lists: it downloads all of
      them, or a prefix of them followed by the one whose download failed. */
  lemma {:induction false} FetchMissingFollows(s: Session, blobs: seq<string>, fetch: Fetcher)
    ensures var o := FetchMissing(s, blobs, fetch);
            var missing := FreshInOrder(s.currentBlobs, blobs);
            && (o.failed.None? ==> o.added == missing)
            && (o.failed.Some? ==> IsPrefix(o.added + [o.failed.value.blob], missing))
    decreases |blobs|
  {
    if |blobs| > 0 {
      var b := blobs[0];
      if b in s.currentBlobs {
        FetchMissingFollows(s, blobs[1..], fetch);
      } else if fetch(b).Success? {
        var s' := Cache(s, b, ExtractText(fetch(b).value));
        var o' := FetchMissing(s', blobs[1..], fetch);
        FetchMissingFollows(s', blobs[1..], fetch);
        FetchMissingStep(s, blobs, fetch);
        if o'.failed.Some? {
          var a := o'.added + [o'.failed.value.blob];
          PrefixCons(b, a, FreshInOrder(s'.currentBlobs, blobs[1..]));
          assert [b] + o'.added + [o'.failed.value.blob] == [b] + a;
        }
      }
    }
  }

  lemma PrefixCons(x: string, a: seq<string>, b: seq<string>)
    requires IsPrefix(a, b)
    ensures IsPrefix([x] + a, [x] + b)
  {
    assert ([x] + b)[..|a| + 1] == [x] + b[..|a|];
  }

  lemma NewEntriesCons(b: string, rest: seq<string>, fetch: Fetcher)
    requires fetch(b).Success? && forall i :: 0 <= i < |rest| ==> fetch(rest[i]).Success?
    ensures NewEntries([b] + rest, fetch) == [Entry(b, ExtractText(fetch(b).value))] + NewEntries(rest, fetch)
  {
  }

  // ---------------------------------------------------------------------
  // Prompts

  function ReportBlock(n: nat, name: string, text: string): string {
    "Report " + NatToString(n) + " (" + name + "):\n" + text + "\n\n"
  }

  /** The `enumerate(report_texts.items(), 1)` loop: one numbered block per
      cached report, in insertion order. */
  function ReportBlocks(d: Dict<string>): string
    decreases |d|
  {
    if |d| == 0 then ""
    else ReportBlocks(d[..|d| - 1]) + ReportBlock(|d|, d[|d| - 1].key, d[|d| - 1].value)
  }

  /** The prompt `analyze_reports` sends: the fixed preamble first, the
      question last, and with no cached report nothing but the two fixed
      texts around the question. */
  function ReportsPrompt(d: Dict<string>, question: string): (p: string)
    ensures |p| >= |ReportsPreamble| + |ReportsQuestionIntro| + |question|
    ensures p[..|ReportsPreamble|] == ReportsPreamble
    ensures p[|p| - |question|..] == question
    ensures |d| == 0 ==> p == ReportsPreamble + ReportsQuestionIntro + question
  {
    ReportsPreamble + ReportBlocks(d) + ReportsQuestionIntro + question
  }

  /** A longer dictionary only adds blocks: the blocks of a prefix of the
      dictionary are a prefix of its blocks. */
  lemma {:induction false} ReportBlocksPrefix(d: Dict<string>, e: Dict<string>)
    requires IsPrefix(d, e)
    ensures IsPrefix(ReportBlocks(d), ReportBlocks(e))
    decreases |e|
  {
    if |d| < |e| {
      var e' := e[..|e| - 1];
      assert e'[..|d|] == d;
      ReportBlocksPrefix(d, e');
    } else {
      assert d == e;
    }
  }

  /** Report number k+1 is the k-th cached report: its block stands in the
      prompt right after the blocks of the reports cached before it. */
  lemma ReportBlockAt(d: Dict<string>, k: nat)
    requires k < |d|
    ensures var pre := ReportBlocks(d[..k]);
            var blk := ReportBlock(k + 1, d[k].key, d[k].value);
            |pre| + |blk| <= |ReportBlocks(d)| && ReportBlocks(d)[|pre|..|pre| + |blk|] == blk
  {
    var upto := d[..k + 1];
    assert upto[..|upto| - 1] == d[..k];
    assert ReportBlocks(upto) == ReportBlocks(d[..k]) + ReportBlock(k + 1, d[k].key, d[k].value);
    ReportBlocksPrefix(upto, d);
  }

  /** The prompt starts with the fixed preamble, ends with the question, and
      holds the block of every cached report right after the blocks of the
      reports cached before it. */
  lemma ReportsPromptHoldsEveryReport(d: Dict<string>, question: string, k: nat)
    requires k < |d|
    ensures var p := ReportsPrompt(d, question);
            var at := |ReportsPreamble| + |ReportBlocks(d[..k])|;
            var blk := ReportBlock(k + 1, d[k].key, d[k].value);
            && at + |blk| <= |p| && p[at..at + |blk|] == blk
            && p[..|ReportsPreamble|] == ReportsPreamble
            && p[|p| - |question|..] == question
  {
    ReportBlockAt(d, k);
    SliceOfMiddle(ReportsPreamble, ReportBlocks(d), ReportsQuestionIntro, question,
                  |ReportBlocks(d[..k])|, |ReportBlocks(d[..k])| + |ReportBlock(k + 1, d[k].key, d[k].value)|);
  }

  lemma SliceOfMiddle(a: string, b: string, c: string, q: string, i: nat, j: nat)
    requires i <= j <= |b|
    ensures var p := a + b + c + q;
            && p[|a| + i..|a| + j] == b[i..j]
            && p[..|a|] == a
            && p[|p| - |q|..] == q
  {
  }

  /** The answer `analyze_reports` returns for the cached reports. */
  function AnalyzeReports(question: string, d: Dict<string>, complete: Completer): (a: string)
    ensures var reply := complete(Request(ReportsPrompt(d, question)));
            && (reply.Success? ==> a == reply.value)
            && (reply.Failure? ==> a == ErrorPrefix + reply.error)
  {
    Answer(complete, ReportsPrompt(d, question))
  }

  /** The prompt of `ask_gpt4`, which puts one report's text as context. */
  function SummaryPrompt(question: string, context: string): string {
    SummaryPreamble + context + "\n\n" + SummaryQuestionIntro + question
  }

  /** `ask_gpt4`: the context sits between the fixed preamble and the
      question; a failed call yields the prefixed error text. */
  function AskGpt4(question: string, context: string, complete: Completer): (a: string)
    ensures var p := SummaryPrompt(question, context);
            && p[..|SummaryPreamble|] == SummaryPreamble
            && p[|SummaryPreamble|..|SummaryPreamble| + |context|] == context
            && p[|p| - |question|..] == question
    ensures complete(Request(SummaryPrompt(question, context))).Success? ==>
              a == complete(Request(SummaryPrompt(question, context))).value
    ensures complete(Request(SummaryPrompt(question, context))).Failure? ==>
              a == ErrorPrefix + complete(Request(SummaryPrompt(question, context))).error
  {
    Answer(complete, SummaryPrompt(question, context))
  }

  // ---------------------------------------------------------------------
  // One question

  function ExtractedLines(blobs: seq<string>): (lines: seq<string>)
    ensures |lines| == |blobs|
  {
    seq(|blobs|, i requires 0 <= i < |blobs| => "Extracted text from " + blobs[i] + "...\n")
  }

  function FetchCalls(blobs: seq<string>): (calls: seq<Call>)
    ensures |calls| == |blobs|
    ensures forall i :: 0 <= i < |blobs| ==> calls[i] == FetchBlob(blobs[i])
  {
    seq(|blobs|, i requires 0 <= i < |blobs| => FetchBlob(blobs[i]))
  }

  function ErrorLine(message: string): string {
    "Error: " + message + "\n\n"
  }

  /** The lines shown for an answered question. */
  function AnswerLines(question: string, answer: string): seq<string> {
    [Analyzing, "You: " + question + "\n", "Bot: " + answer + "\n\n"]
  }

  /** After the download loop: the error line if it stopped, otherwise one
      completion call over every cached report. */
  function Finish(o: FetchOutcome, question: string, complete: Completer): Reply {
    match o.failed
    case Some(f) =>
      Reply(o.session, ExtractedLines(o.added) + [ErrorLine(f.message)], FetchCalls(o.added + [f.blob]))
    case None =>
      var prompt := ReportsPrompt(o.session.reportTexts, question);
      Reply(o.session, ExtractedLines(o.added) + AnswerLines(question, Answer(complete, prompt)),
            FetchCalls(o.added) + [Complete(Request(prompt))])
  }

  /** A loop that ran through answers with exactly one completion call, last. */
  lemma FinishAnswered(o: FetchOutcome, question: string, complete: Completer)
    requires o.failed.None?
    ensures var r := Finish(o, question, complete);
            var prompt := ReportsPrompt(o.session.reportTexts, question);
            && r.session == o.session
            && r.calls == FetchCalls(o.added) + [Complete(Request(prompt))]
            && r.lines == ExtractedLines(o.added) + AnswerLines(question, Answer(complete, prompt))
  {
  }

  /** A loop stopped by a failed download shows the exception text last
      and does not call the model. */
  lemma FinishFailed(o: FetchOutcome, question: string, complete: Completer)
    requires o.failed.Some?
    ensures var r := Finish(o, question, complete);
            && r.session == o.session
            && r.calls == FetchCalls(o.added + [o.failed.value.blob])
            && r.lines == ExtractedLines(o.added) + [ErrorLine(o.failed.value.message)]
  {
  }

  /** `Finish` after a loop that stopped at the k-th missing report. */
  lemma FailedReply(o: FetchOutcome, missing: seq<string>, k: nat, question: string, complete: Completer)
    requires k < |missing| && o.failed.Some? && o.added == missing[..k] && o.failed.value.blob == missing[k]
    ensures var r := Finish(o, question, complete);
            && r.session == o.session
            && r.calls == FetchCalls(missing[..k + 1])
            && r.lines == ExtractedLines(missing[..k]) + [ErrorLine(o.failed.value.message)]
  {
    FinishFailed(o, question, complete);
    assert missing[..k] + [missing[k]] == missing[..k + 1];
  }

  /** `ask_question`: what one press of "Ask" shows, calls and caches. */
  function AskQuestion(s: Session, companyYears: string, question: string,
                       fetch: Fetcher, complete: Completer): (r: Reply)
    ensures r.session.reportNames == s.reportNames
    ensures IsPrefix(s.currentBlobs, r.session.currentBlobs)
    ensures |r.lines| >= 1
    ensures r.calls == [] ==> r.session == s && (r.lines == [PromptForInput] || r.lines == [NoMatch])
    ensures r.session != s ==> |r.calls| > |r.session.currentBlobs| - |s.currentBlobs|
  {
    var keys := Normalise(companyYears);
    if |keys| == 0 || |question| == 0 then Reply(s, [PromptForInput], [])
    else
      var matching := Resolve(keys, s.reportNames);
      if |matching| == 0 then Reply(s, [NoMatch], [])
      else Finish(FetchMissing(s, matching, fetch), question, complete)
  }

  /** The reports a question asks for. */
  function Requested(s: Session, companyYears: string): seq<string> {
    Resolve(Normalise(companyYears), s.reportNames)
  }

  /** Input that is only commas (or nothing), or an empty question, gets the
      prompt-for-input message and nothing else: no call, no state change. */
  lemma AskRejectsMissingInput(s: Session, companyYears: string, question: string,
                               fetch: Fetcher, complete: Completer)
    requires (forall i :: 0 <= i < |companyYears| ==> companyYears[i] == ',') || question == ""
    ensures AskQuestion(s, companyYears, question, fetch, complete) == Reply(s, [PromptForInput], [])
  {
    NormaliseEmptyIff(companyYears);
  }

  /** When no report name contains any of the keys, the reply is "No matching
      reports found." with no call and no state change. */
  lemma AskNoMatch(s: Session, companyYears: string, question: string,
                   fetch: Fetcher, complete: Completer)
    requires Normalise(companyYears) != [] && question != ""
    requires forall i, j :: 0 <= i < |Normalise(companyYears)| && 0 <= j < |s.reportNames| ==>
               !Selects(s.reportNames[j], Normalise(companyYears)[i])
    ensures AskQuestion(s, companyYears, question, fetch, complete) == Reply(s, [NoMatch], [])
  {
    ResolveEmptyIff(Normalise(companyYears), s.reportNames);
  }

  /** A question makes external calls exactly when it passes validation and
      resolves at least one report. */
  lemma AskCallsIff(s: Session, companyYears: string, question: string,
                    fetch: Fetcher, complete: Completer)
    ensures AskQuestion(s, companyYears, question, fetch, complete).calls == [] <==>
              (Normalise(companyYears) == [] || question == "" || Requested(s, companyYears) == [])
  {
    var keys := Normalise(companyYears);
    if keys != [] && question != "" && Requested(s, companyYears) != [] {
      var o := FetchMissing(s, Requested(s, companyYears), fetch);
      if o.failed.Some? {
        assert |FetchCalls(o.added + [o.failed.value.blob])| > 0;
      }
    }
  }

  /** The cache never shrinks: the old reports and texts are kept as they
      were, in the same order, the invariant holds, and the name list is
      untouched. */
  lemma AskKeepsCache(s: Session, companyYears: string, question: string,
                      fetch: Fetcher, complete: Completer)
    requires Valid(s)
    ensures var r := AskQuestion(s, companyYears, question, fetch, complete);
            && Valid(r.session)
            && r.session.reportNames == s.reportNames
            && IsPrefix(s.currentBlobs, r.session.currentBlobs)
            && IsPrefix(s.reportTexts, r.session.reportTexts)
  {
    if Normalise(companyYears) != [] && question != "" && Requested(s, companyYears) != [] {
      FetchMissingKeepsCache(s, Requested(s, companyYears), fetch);
      var o := FetchMissing(s, Requested(s, companyYears), fetch);
      assert AskQuestion(s, companyYears, question, fetch, complete).session == o.session;
      assert (s.currentBlobs + o.added)[..|s.currentBlobs|] == s.currentBlobs;
      var n := NewEntries(o.added, fetch);
      assert (s.reportTexts + n)[..|s.reportTexts|] == s.reportTexts;
    }
  }

  /** Names of the downloads in a call trace, in order. */
  function Downloads(calls: seq<Call>): seq<string>
    decreases |calls|
  {
    if |calls| == 0 then []
    else (if calls[0].FetchBlob? then [calls[0].name] else []) + Downloads(calls[1..])
  }

  lemma {:induction false} DownloadsOfFetchCalls(blobs: seq<string>)
    ensures Downloads(FetchCalls(blobs)) == blobs
    ensures forall req :: Downloads(FetchCalls(blobs) + [Complete(req)]) == blobs
    decreases |blobs|
  {
    if |blobs| > 0 {
      assert FetchCalls(blobs)[1..] == FetchCalls(blobs[1..]);
      DownloadsOfFetchCalls(blobs[1..]);
      forall req ensures Downloads(FetchCalls(blobs) + [Complete(req)]) == blobs {
        assert (FetchCalls(blobs) + [Complete(req)])[1..] == FetchCalls(blobs[1..]) + [Complete(req)];
      }
    } else {
      forall req ensures Downloads(FetchCalls(blobs) + [Complete(req)]) == blobs {
        assert FetchCalls(blobs) + [Complete(req)] == [Complete(req)];
        assert [Complete(req)][1..] == [];
      }
    }
  }

  /** The downloads a question makes: none when it stops before the loop,
      otherwise the reports the loop fetched, and the failing one if any. */
  lemma AskDownloads(s: Session, companyYears: string, question: string,
                     fetch: Fetcher, complete: Completer)
    ensures var r := AskQuestion(s, companyYears, question, fetch, complete);
            var o := FetchMissing(s, Requested(s, companyYears), fetch);
            Downloads(r.calls) ==
              if Normalise(companyYears) == [] || question == "" || Requested(s, companyYears) == [] then []
              else if o.failed.Some? then o.added + [o.failed.value.blob]
              else o.added
  {
    var o := FetchMissing(s, Requested(s, companyYears), fetch);
    if o.failed.Some? {
      DownloadsOfFetchCalls(o.added + [o.failed.value.blob]);
    } else {
      DownloadsOfFetchCalls(o.added);
    }
  }

  /** A question downloads only reports not yet cached, none twice, in
      first-asked order, each one of the requested reports. */
  lemma AskFetchesOnlyMissing(s: Session, companyYears: string, question: string,
                              fetch: Fetcher, complete: Completer)
    ensures var d := Downloads(AskQuestion(s, companyYears, question, fetch, complete).calls);
            && IsPrefix(d, FreshInOrder(s.currentBlobs, Requested(s, companyYears)))
            && Distinct(d)
            && forall i :: 0 <= i < |d| ==> d[i] !in s.currentBlobs && d[i] in Requested(s, companyYears)
  {
    var matching := Requested(s, companyYears);
    var missing := FreshInOrder(s.currentBlobs, matching);
    FetchMissingFollows(s, matching, fetch);
    AskDownloads(s, companyYears, question, fetch, complete);
    var d := Downloads(AskQuestion(s, companyYears, question, fetch, complete).calls);
    assert IsPrefix(d, missing);
    FreshInOrderSpec(s.currentBlobs, matching);
    PrefixOfFresh(d, missing, s.currentBlobs, matching);
  }

  /** A prefix of the fresh reports is itself repeat-free and fresh. */
  lemma PrefixOfFresh(d: seq<string>, missing: seq<string>, seen: seq<string>, xs: seq<string>)
    requires IsPrefix(d, missing) && Distinct(missing)
    requires forall x :: x in missing <==> x in xs && x !in seen
    ensures Distinct(d)
    ensures forall i :: 0 <= i < |d| ==> d[i] !in seen && d[i] in xs
  {
    forall i | 0 <= i < |d| ensures d[i] !in seen && d[i] in xs {
      assert d[i] == missing[i];
    }
  }

  /** Past validation and resolution, a question is the download loop over
      the requested reports followed by `Finish`. */
  lemma AskRuns(s: Session, companyYears: string, question: string,
                fetch: Fetcher, complete: Completer)
    requires Normalise(companyYears) != [] && question != "" && Requested(s, companyYears) != []
    ensures AskQuestion(s, companyYears, question, fetch, complete)
            == Finish(FetchMissing(s, Requested(s, companyYears), fetch), question, complete)
  {
  }

  /** When no download fails the loop runs to the end. */
  lemma LoopRunsThrough(s: Session, matching: seq<string>, fetch: Fetcher)
    requires forall i :: 0 <= i < |FreshInOrder(s.currentBlobs, matching)| ==>
               fetch(FreshInOrder(s.currentBlobs, matching)[i]).Success?
    ensures var o := FetchMissing(s, matching, fetch);
            o.failed.None? && o.added == FreshInOrder(s.currentBlobs, matching)
  {
    var o := FetchMissing(s, matching, fetch);
    FetchMissingFollows(s, matching, fetch);
    RunsThrough(o, FreshInOrder(s.currentBlobs, matching), fetch);
  }

  /** The element after a prefix `a` of `b` whose extension by `x` is also
      a prefix is `x`. */
  lemma PrefixNext(a: seq<string>, x: string, b: seq<string>)
    ensures IsPrefix(a + [x], b) ==> |a| < |b| && b[|a|] == x
  {
    if IsPrefix(a + [x], b) {
      assert (a + [x])[|a|] == x;
    }
  }

  lemma RunsThrough(o: FetchOutcome, missing: seq<string>, fetch: Fetcher)
    requires o.failed.Some? ==> IsPrefix(o.added + [o.failed.value.blob], missing)
                                && fetch(o.failed.value.blob) == Failure(o.failed.value.message)
    requires forall i :: 0 <= i < |missing| ==> fetch(missing[i]).Success?
    ensures o.failed.None?
  {
    if o.failed.Some? {
      PrefixNext(o.added, o.failed.value.blob, missing);
      assert false;
    }
  }

  /** The loop stops exactly at the first report whose download fails. */
  lemma LoopStopsAtFirstFailure(s: Session, matching: seq<string>, fetch: Fetcher, k: nat)
    requires var missing := FreshInOrder(s.currentBlobs, matching);
             && k < |missing| && fetch(missing[k]).Failure?
             && forall i :: 0 <= i < k ==> fetch(missing[i]).Success?
    ensures var missing := FreshInOrder(s.currentBlobs, matching);
            var o := FetchMissing(s, matching, fetch);
            o.failed.Some? && o.added == missing[..k] && o.failed.value.blob == missing[k]
  {
    var missing := FreshInOrder(s.currentBlobs, matching);
    FetchMissingFollows(s, matching, fetch);
    StopsAt(FetchMissing(s, matching, fetch), missing, fetch, k);
  }

  lemma StopsAt(o: FetchOutcome, missing: seq<string>, fetch: Fetcher, k: nat)
    requires o.failed.None? ==> o.added == missing
    requires o.failed.Some? ==> IsPrefix(o.added + [o.failed.value.blob], missing)
                                && fetch(o.failed.value.blob) == Failure(o.failed.value.message)
    requires forall i :: 0 <= i < |o.added| ==> fetch(o.added[i]).Success?
    requires k < |missing| && fetch(missing[k]).Failure?
    requires forall i :: 0 <= i < k ==> fetch(missing[i]).Success?
    ensures o.failed.Some? && o.added == missing[..k] && o.failed.value.blob == missing[k]
  {
    if o.failed.None? {
      assert false;
    }
    var b := o.failed.value.blob;
    PrefixNext(o.added, b, missing);
    assert o.added == missing[..|o.added|] by {
      assert (o.added + [b])[..|o.added|] == o.added;
    }
    if |o.added| < k {
      assert false;
    }
    if |o.added| > k {
      assert false;
    }
  }

  /** When every download succeeds the cache grows by exactly the new
      reports in first-asked order, and the one completion call carries the
      prompt over ALL cached reports, whose answer is shown. */
  lemma AskSucceeds(s: Session, companyYears: string, question: string,
                    fetch: Fetcher, complete: Completer)
    requires Valid(s)
    requires Normalise(companyYears) != [] && question != "" && Requested(s, companyYears) != []
    requires var missing := FreshInOrder(s.currentBlobs, Requested(s, companyYears));
             forall i :: 0 <= i < |missing| ==> fetch(missing[i]).Success?
    ensures var missing := FreshInOrder(s.currentBlobs, Requested(s, companyYears));
            var r := AskQuestion(s, companyYears, question, fetch, complete);
            var prompt := ReportsPrompt(r.session.reportTexts, question);
            && r.session.currentBlobs == s.currentBlobs + missing
            && r.session.reportTexts == s.reportTexts + NewEntries(missing, fetch)
            && r.calls == FetchCalls(missing) + [Complete(Request(prompt))]
            && r.lines == ExtractedLines(missing) + AnswerLines(question, Answer(complete, prompt))
  {
    var matching := Requested(s, companyYears);
    FetchMissingKeepsCache(s, matching, fetch);
    LoopRunsThrough(s, matching, fetch);
    AskRuns(s, companyYears, question, fetch, complete);
    FinishAnswered(FetchMissing(s, matching, fetch), question, complete);
  }

  /** A failed download stops the question: the reports fetched before it
      stay cached, the exception text is the last line, and the model is
      not called. */
  lemma AskFetchFails(s: Session, companyYears: string, question: string,
                      fetch: Fetcher, complete: Completer, k: nat)
    requires Normalise(companyYears) != [] && question != ""
    requires var missing := FreshInOrder(s.currentBlobs, Requested(s, companyYears));
             && k < |missing| && fetch(missing[k]).Failure?
             && forall i :: 0 <= i < k ==> fetch(missing[i]).Success?
    ensures var missing := FreshInOrder(s.currentBlobs, Requested(s, companyYears));
            var r := AskQuestion(s, companyYears, question, fetch, complete);
            && r.session.currentBlobs == s.currentBlobs + missing[..k]
            && r.calls == FetchCalls(missing[..k + 1])
            && r.lines == ExtractedLines(missing[..k]) + [ErrorLine(fetch(missing[k]).error)]
  {
    var matching := Requested(s, companyYears);
    var missing := FreshInOrder(s.currentBlobs, matching);
    LoopStopsAtFirstFailure(s, matching, fetch, k);
    AskRuns(s, companyYears, question, fetch, complete);
    FailedReply(FetchMissing(s, matching, fetch), missing, k, question, complete);
  }

  /** Asking again about reports that are all cached downloads nothing and
      leaves the session as it was; the model still sees every cached report. */
  lemma AskCachedFetchesNothing(s: Session, companyYears: string, question: string,
                                fetch: Fetcher, complete: Completer)
    requires Normalise(companyYears) != [] && question != "" && Requested(s, companyYears) != []
    requires forall i :: 0 <= i < |Requested(s, companyYears)| ==> Requested(s, companyYears)[i] in s.currentBlobs
    ensures AskQuestion(s, companyYears, question, fetch, complete)
            == Reply(s, AnswerLines(question, Answer(complete, ReportsPrompt(s.reportTexts, question))),
                     [Complete(Request(ReportsPrompt(s.reportTexts, question)))])
  {
    var matching := Requested(s, companyYears);
    NothingMissing(s, matching, fetch);
    AskRuns(s, companyYears, question, fetch, complete);
    var o := FetchMissing(s, matching, fetch);
    FinishAnswered(o, question, complete);
    assert ExtractedLines([]) == [] && FetchCalls([]) == [];
  }

  /** A loop over cached reports only downloads nothing. */
  lemma NothingMissing(s: Session, matching: seq<string>, fetch: Fetcher)
    requires forall i :: 0 <= i < |matching| ==> matching[i] in s.currentBlobs
    ensures var o := FetchMissing(s, matching, fetch);
            o.added == [] && o.failed.None? && o.session == s
  {
    FreshInOrderSpec(s.currentBlobs, matching);
  }

  /** A report cached by one question is never downloaded by the next: the
      next question's downloads are all reports the first left uncached. */
  lemma CachedNeverRefetched(s: Session, companyYears: string, question: string,
                             companyYears': string, question': string,
                             fetch: Fetcher, fetch': Fetcher, complete: Completer)
    ensures var r := AskQuestion(s, companyYears, question, fetch, complete);
            var d := Downloads(AskQuestion(r.session, companyYears', question', fetch', complete).calls);
            forall i :: 0 <= i < |d| ==> d[i] !in r.session.currentBlobs && d[i] !in s.currentBlobs
  {
    var r := AskQuestion(s, companyYears, question, fetch, complete);
    AskFetchesOnlyMissing(r.session, companyYears', question', fetch', complete);
    var d := Downloads(AskQuestion(r.session, companyYears', question', fetch', complete).calls);
    forall i | 0 <= i < |d| ensures d[i] !in s.currentBlobs {
      assert r.session.currentBlobs[..|s.currentBlobs|] == s.currentBlobs;
    }
  }

  /** A report whose download failed is not cached, so asking the same
      question again downloads it again; when the retried downloads succeed,
      it is cached then. */
  lemma FailedReportRetried(s: Session, companyYears: string, question: string,
                            fetch: Fetcher, fetch': Fetcher, complete: Completer, k: nat)
    requires Valid(s)
    requires Normalise(companyYears) != [] && question != ""
    requires var missing := FreshInOrder(s.currentBlobs, Requested(s, companyYears));
             && k < |missing| && fetch(missing[k]).Failure?
             && forall i :: 0 <= i < k ==> fetch(missing[i]).Success?
    requires var r := AskQuestion(s, companyYears, question, fetch, complete);
             var again := FreshInOrder(r.session.currentBlobs, Requested(r.session, companyYears));
             forall i :: 0 <= i < |again| ==> fetch'(again[i]).Success?
    ensures var missing := FreshInOrder(s.currentBlobs, Requested(s, companyYears));
            var r := AskQuestion(s, companyYears, question, fetch, complete);
            var r' := AskQuestion(r.session, companyYears, question, fetch', complete);
            && missing[k] !in r.session.currentBlobs
            && missing[k] in Downloads(r'.calls)
            && missing[k] in r'.session.currentBlobs
  {
    var matching := Requested(s, companyYears);
    var missing := FreshInOrder(s.currentBlobs, matching);
    var r := AskQuestion(s, companyYears, question, fetch, complete);
    AskFetchFails(s, companyYears, question, fetch, complete, k);
    FreshInOrderSpec(s.currentBlobs, matching);
    assert missing[k] in matching;
    assert missing[k] !in missing[..k];
    assert missing[k] !in r.session.currentBlobs;
    AskKeepsCache(s, companyYears, question, fetch, complete);
    assert Requested(r.session, companyYears) == matching;
    var again := FreshInOrder(r.session.currentBlobs, matching);
    FreshInOrderSpec(r.session.currentBlobs, matching);
    assert missing[k] in again;
    AskSucceeds(r.session, companyYears, question, fetch', complete);
    var r' := AskQuestion(r.session, companyYears, question, fetch', complete);
    DownloadsOfFetchCalls(again);
    assert Downloads(r'.calls) == again;
  }
}
