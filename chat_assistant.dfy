/**
 * The streaming chat assistant. A submission is single-flight: a query that
 * is not blank is sent only while no answer is streaming. The answer arrives
 * as a sequence of reads from the response body; each chunk is decoded on its
 * own and appended, and the whole text so far is shown after every chunk.
 *
 * The asynchronous `fetchData` is split at its first `await`: `HandleSubmit`
 * is the synchronous part that sets the flags and issues the request,
 * `Receive` the rest, given what `fetch` resolved to and what every
 * `reader.read()` gave. The decoder is an opaque per-chunk function.
 */
module ChatAssistant {
  import opened Wrappers
  import Js
  import Config

  newtype byte = x: int | 0 <= x < 256

  /** The text shown before the first submission. */
  const Greeting := "**Have Questions?** \U{1F914}\n\nI'm Ilyas's AI assistant \U{1F916}. Chat with me to discover how we can add value to your projects.\n\n++\n\n***PS:** Some prompts to get you started are on top of the chat box.*"

  /** The one-click prompts shown above the input. */
  const PromptExamples: seq<string> := [
    "What's your favorite project?",
    "Can you describe your experience?",
    "What are your skills?",
    "Tell me about your projects.",
    "How can I contact you?"
  ]

  /** The JSON body of a generation request. */
  datatype GenerateBody = GenerateBody(query: string, stream: bool, messages: seq<string>)

  /** A `POST` with a JSON body and a bearer `Authorization` header. */
  datatype ChatRequest = ChatRequest(url: string, authorization: string, body: GenerateBody)

  /** One `reader.read()`: it resolves to a value (possibly absent) and the `done` flag, or it rejects. */
  datatype ReadResult = Read(value: Option<seq<byte>>, done: bool) | ReadFailed(reason: string)

  /** What `fetch` gives: a rejection, or a status with the reads its body will yield. */
  datatype Response = FetchFailed(reason: string) | Http(status: nat, results: seq<ReadResult>)

  /** How `Receive` ends: the stream closed, an error was caught, or the reads ran out with the stream still open. */
  datatype Outcome = Completed | Failed | StillOpen

  /** `response.ok`. */
  predicate IsOk(status: nat)
  {
    200 <= status <= 299
  }

  /** The message of the error thrown for a non-ok status: a fixed prefix, then the status as a decimal numeral. */
  function HttpErrorMessage(status: nat): (m: string)
    ensures |m| > 20 && m[..20] == "HTTP error! status: "
    ensures Js.AllDigits(m[20..]) && Js.ParseDecimal(m[20..]) == status
  {
    var m := "HTTP error! status: " + Js.Decimal(status);
    assert m[20..] == Js.Decimal(status);
    Js.ParseDecimalOfDecimal(status);
    m
  }

  /** The message names the status: distinct statuses give distinct messages. */
  lemma HttpErrorMessageInjective(m: nat, n: nat)
    ensures HttpErrorMessage(m) == HttpErrorMessage(n) ==> m == n
  {
    var a, b := HttpErrorMessage(m), HttpErrorMessage(n);
    assert a[20..] == Js.Decimal(m) && b[20..] == Js.Decimal(n);
    Js.DecimalInjective(m, n);
  }

  /** A read after which the loop stops: the stream is done, or the read rejected. */
  predicate Ends(r: ReadResult)
  {
    r.ReadFailed? || r.done
  }

  /** A read that carries a chunk. Any present chunk counts, even an empty one: a `Uint8Array` is truthy. */
  predicate HasValue(r: ReadResult)
    ensures HasValue(r) ==> r.Read?
    ensures r.Read? && r.value == Some([]) ==> HasValue(r)
  {
    r.Read? && r.value.Some?
  }

  /** The decoded text of one read, or "" for a read without a chunk. */
  function Received(r: ReadResult, decode: seq<byte> -> string): (t: string)
    ensures !HasValue(r) ==> t == ""
    ensures HasValue(r) ==> t == decode(r.value.value)
  {
    if HasValue(r) then decode(r.value.value) else ""
  }

  /** The decoded chunks of `results`, concatenated in arrival order. */
  function Decoded(results: seq<ReadResult>, decode: seq<byte> -> string): (t: string)
    ensures !AnyValue(results) ==> t == ""
  {
    if results == [] then "" else Received(results[0], decode) + Decoded(results[1..], decode)
  }

  /** Some read of `results` carries a chunk. */
  predicate AnyValue(results: seq<ReadResult>)
  {
    exists j :: 0 <= j < |results| && HasValue(results[j])
  }

  /**
   * How many reads the loop performs: up to and including the first read that
   * ends it, or all of them when none does.
   */
  function ReadsPerformed(results: seq<ReadResult>): (n: nat)
    ensures n <= |results|
    ensures n == 0 <==> results == []
    ensures forall j :: 0 <= j < n - 1 ==> !Ends(results[j])
    ensures n < |results| ==> Ends(results[n - 1])
  {
    if results == [] then 0 else if Ends(results[0]) then 1 else 1 + ReadsPerformed(results[1..])
  }

  /** A count with the properties of `ReadsPerformed` is that count: so the loop's stopping point is the specified one. */
  lemma {:induction false} ReadsPerformedUnique(results: seq<ReadResult>, n: nat)
    requires n <= |results| && (n == 0 <==> results == [])
    requires forall j :: 0 <= j < n - 1 ==> !Ends(results[j])
    requires n < |results| ==> Ends(results[n - 1])
    ensures ReadsPerformed(results) == n
  {
    if results != [] && !Ends(results[0]) {
      var rest := results[1..];
      assert n - 1 == 0 <==> rest == [];
      assert forall j :: 0 <= j < n - 2 ==> !Ends(rest[j]) by {
        forall j | 0 <= j < n - 2 ensures !Ends(rest[j]) { assert rest[j] == results[j + 1]; }
      }
      ReadsPerformedUnique(rest, n - 1);
    }
  }

  /** Appending a read appends its decoded chunk: the text accumulates in arrival order. */
  lemma {:induction false} DecodedSnoc(results: seq<ReadResult>, r: ReadResult, decode: seq<byte> -> string)
    ensures Decoded(results + [r], decode) == Decoded(results, decode) + Received(r, decode)
  {
    if results == [] {
      assert [r][1..] == [];
    } else {
      assert (results + [r])[1..] == results[1..] + [r];
      DecodedSnoc(results[1..], r, decode);
    }
  }

  /** The text shown after `n` reads is a prefix of the text shown after `m >= n` reads: it only grows. */
  lemma {:induction false} DecodedGrows(results: seq<ReadResult>, n: nat, m: nat, decode: seq<byte> -> string)
    requires n <= m <= |results|
    ensures Decoded(results[..n], decode) <= Decoded(results[..m], decode)
    decreases m - n
  {
    if n < m {
      DecodedGrows(results, n, m - 1, decode);
      assert results[..m] == results[..m - 1] + [results[m - 1]];
      DecodedSnoc(results[..m - 1], results[m - 1], decode);
    }
  }

  /** Appending a read adds a chunk exactly when that read carries one. */
  lemma AnyValueSnoc(results: seq<ReadResult>, r: ReadResult)
    ensures AnyValue(results + [r]) <==> AnyValue(results) || HasValue(r)
  {
    var s := results + [r];
    if AnyValue(results) {
      var j :| 0 <= j < |results| && HasValue(results[j]);
      assert s[j] == results[j];
    }
    if AnyValue(s) && !HasValue(r) {
      var j :| 0 <= j < |s| && HasValue(s[j]);
      assert j < |results| && s[j] == results[j];
    }
    if HasValue(r) {
      assert s[|results|] == r;
    }
  }

  /** The text after the first `n` reads, built up one read at a time as the loop does. */
  function DecodedUpTo(results: seq<ReadResult>, n: nat, decode: seq<byte> -> string): string
    requires n <= |results|
  {
    if n == 0 then "" else DecodedUpTo(results, n - 1, decode) + Received(results[n - 1], decode)
  }

  /** Some chunk has come within the first `n` reads: the negation of `isFirstChunk`. */
  predicate ChunkBy(results: seq<ReadResult>, n: nat)
    requires n <= |results|
  {
    n > 0 && (ChunkBy(results, n - 1) || HasValue(results[n - 1]))
  }

  /** Built up read by read, the text is that of the prefix read so far. */
  lemma {:induction false} DecodedUpToIsPrefix(results: seq<ReadResult>, n: nat, decode: seq<byte> -> string)
    requires n <= |results|
    ensures DecodedUpTo(results, n, decode) == Decoded(results[..n], decode)
  {
    if n > 0 {
      DecodedUpToIsPrefix(results, n - 1, decode);
      assert results[..n] == results[..n - 1] + [results[n - 1]];
      DecodedSnoc(results[..n - 1], results[n - 1], decode);
    }
  }

  /** Read by read, a chunk has come exactly when the prefix read so far holds one. */
  lemma {:induction false} ChunkByIsPrefix(results: seq<ReadResult>, n: nat)
    requires n <= |results|
    ensures ChunkBy(results, n) <==> AnyValue(results[..n])
  {
    if n > 0 {
      ChunkByIsPrefix(results, n - 1);
      assert results[..n] == results[..n - 1] + [results[n - 1]];
      AnyValueSnoc(results[..n - 1], results[n - 1]);
    }
  }

  /** `j` is the first read that ends the loop. */
  ghost predicate FirstEnd(results: seq<ReadResult>, j: int)
  {
    0 <= j < |results| && Ends(results[j]) && forall k :: 0 <= k < j ==> !Ends(results[k])
  }

  /**
   * How the stream part ends, read off the last read performed: failed when
   * the first read that ends the loop is a rejection, completed when it is a
   * read with `done` set.
   */
  function StreamEnd(results: seq<ReadResult>): (o: Outcome)
    ensures o == Failed <==> exists j :: FirstEnd(results, j) && results[j].ReadFailed?
    ensures o == Completed <==> exists j :: FirstEnd(results, j) && results[j].Read?
  {
    var n := ReadsPerformed(results);
    FirstEndIsLastPerformed(results);
    if n > 0 && results[n - 1].ReadFailed? then Failed
    else if n > 0 && results[n - 1].done then Completed
    else StillOpen
  }

  /** The first read that ends the loop, when there is one, is the last one performed. */
  lemma FirstEndIsLastPerformed(results: seq<ReadResult>)
    ensures forall j :: FirstEnd(results, j) <==> ReadsPerformed(results) > 0 && j == ReadsPerformed(results) - 1
                                                   && Ends(results[j])
  {
    var n := ReadsPerformed(results);
    forall j | FirstEnd(results, j) ensures n > 0 && j == n - 1 {
    }
  }

  /** The reads stop the loop on their own exactly when some read ends it. */
  lemma {:induction false} StreamEndStillOpen(results: seq<ReadResult>)
    ensures StreamEnd(results) == StillOpen <==> forall j :: 0 <= j < |results| ==> !Ends(results[j])
  {
    var n := ReadsPerformed(results);
    if StreamEnd(results) == StillOpen {
      assert n == |results|;
      forall j | 0 <= j < |results| ensures !Ends(results[j]) {
        if j < n - 1 { } else { assert j == n - 1; }
      }
    }
  }

  /** The component instance: the input text, the text on display and the three flags. */
  class Assistant {
    var message: string
    var robotMessage: string
    var isStreaming: bool
    var isLoading: bool
    var isAssistantActive: bool

    constructor ()
      ensures message == "" && robotMessage == Greeting
      ensures !isStreaming && !isLoading && !isAssistantActive
    {
      message, robotMessage := "", Greeting;
      isStreaming, isLoading, isAssistantActive := false, false, false;
    }

    /** The input's `onChange`. */
    method SetMessage(value: string)
      modifies this
      ensures message == value
      ensures robotMessage == old(robotMessage) && isStreaming == old(isStreaming)
      ensures isLoading == old(isLoading) && isAssistantActive == old(isAssistantActive)
    {
      message := value;
    }

    /**
     * `handleSubmit(e, userMessage)`: the text to send is the preset prompt
     * when there is one, else the input. It is accepted exactly when it is not
     * blank and nothing is streaming; then the three flags go on, the display
     * is emptied and one request is issued: to `{base}/generate`, asking for a
     * stream, with no prior messages. Otherwise nothing changes and no request
     * is issued. The input itself is never changed.
     */
    method HandleSubmit(userMessage: Option<string>, env: Config.Env) returns (request: Option<ChatRequest>)
      modifies this
      ensures request.Some? <==> !Js.IsBlank(userMessage.GetOr(old(message))) && !old(isStreaming)
      ensures request.Some? ==>
                && request.value == ChatRequest(Config.BaseUrl(env) + "/generate", Config.Bearer(env),
                                                GenerateBody(userMessage.GetOr(old(message)), true, []))
                && isAssistantActive && isStreaming && isLoading && robotMessage == ""
      ensures request.None? ==>
                && robotMessage == old(robotMessage) && isStreaming == old(isStreaming)
                && isLoading == old(isLoading) && isAssistantActive == old(isAssistantActive)
      ensures message == old(message)
    {
      var messageToSend := userMessage.GetOr(message);
      if !Js.IsBlank(messageToSend) && !isStreaming {
        isAssistantActive := true;
        isStreaming := true;
        robotMessage := "";
        isLoading := true;
        var url := Config.BaseUrl(env);
        request := Some(ChatRequest(url + "/generate", Config.Bearer(env), GenerateBody(messageToSend, true, [])));
      } else {
        request := None;
      }
    }

    /** `handleClear`: empties the input and nothing else. */
    method HandleClear()
      modifies this
      ensures message == ""
      ensures robotMessage == old(robotMessage) && isStreaming == old(isStreaming)
      ensures isLoading == old(isLoading) && isAssistantActive == old(isAssistantActive)
    {
      message := "";
    }

    /** `handlePromptClick`: the prompt goes into the input, then is submitted (the 100 ms delay is a step). */
    method HandlePromptClick(prompt: string, env: Config.Env) returns (request: Option<ChatRequest>)
      modifies this
      ensures message == prompt
      ensures request.Some? <==> !Js.IsBlank(prompt) && !old(isStreaming)
      ensures request.Some? ==>
                && request.value == ChatRequest(Config.BaseUrl(env) + "/generate", Config.Bearer(env),
                                                GenerateBody(prompt, true, []))
                && isAssistantActive && isStreaming && isLoading && robotMessage == ""
      ensures request.None? ==>
                && robotMessage == old(robotMessage) && isStreaming == old(isStreaming)
                && isLoading == old(isLoading) && isAssistantActive == old(isAssistantActive)
    {
      message := prompt;
      request := HandleSubmit(Some(prompt), env);
    }

    /**
     * The rest of `fetchData`, once `fetch` has settled.
     *
     * A rejected `fetch`, a non-ok status or a rejected read ends in the
     * `catch`: streaming and loading off, the display showing "Error: " and
     * the error's message. Otherwise the reads are consumed in order up to the
     * one that ends the loop; after them the display is the concatenation of
     * every chunk decoded so far (unchanged when no chunk came), and loading is
     * off as soon as one chunk came. On a closed stream streaming goes off and
     * the text stays. After the `catch` and after a closed stream the active
     * flag is off (the `finally`); when the reads run out with the stream
     * still open the code is still awaiting, and the flags are as they were.
     */
    method Receive(response: Response, decode: seq<byte> -> string) returns (outcome: Outcome)
      modifies this
      ensures message == old(message)
      ensures outcome != StillOpen ==> !isAssistantActive && !isStreaming
      ensures outcome == StillOpen ==> isAssistantActive == old(isAssistantActive) && isStreaming == old(isStreaming)
      ensures outcome == StillOpen <==> response.Http? && IsOk(response.status)
                                        && forall j :: 0 <= j < |response.results| ==> !Ends(response.results[j])
      ensures outcome == Failed ==> !isLoading
      ensures response.FetchFailed? ==> outcome == Failed && robotMessage == "Error: " + response.reason
      ensures response.Http? && !IsOk(response.status) ==>
                outcome == Failed && robotMessage == "Error: " + HttpErrorMessage(response.status)
      ensures response.Http? && IsOk(response.status) ==>
                var results := response.results;
                var seen := results[..ReadsPerformed(results)];
                && outcome == StreamEnd(results)
                && (outcome == Failed ==> robotMessage == "Error: " + seen[|seen| - 1].reason)
                && (outcome != Failed ==>
                      && robotMessage == (if AnyValue(seen) then Decoded(seen, decode) else old(robotMessage))
                      && isLoading == (old(isLoading) && !AnyValue(seen)))
    {
      match response
      case FetchFailed(reason) =>
        Fail(reason);
        outcome := Failed;
      case Http(status, results) =>
        if !IsOk(status) {
          Fail(HttpErrorMessage(status));
          outcome := Failed;
        } else {
          outcome := ReadBody(results, decode);
        }
    }

    /** The `catch` block followed by the `finally`: show the error, everything off. */
    method Fail(reason: string)
      modifies this
      ensures message == old(message)
      ensures !isStreaming && !isLoading && !isAssistantActive
      ensures robotMessage == "Error: " + reason
    {
      isStreaming := false;
      isLoading := false;
      robotMessage := "Error: " + reason;
      isAssistantActive := false;
    }

    /** The read loop of an ok response, and what follows it. */
    method ReadBody(results: seq<ReadResult>, decode: seq<byte> -> string) returns (outcome: Outcome)
      modifies this
      ensures message == old(message)
      ensures outcome == StreamEnd(results)
      ensures outcome == StillOpen <==> forall j :: 0 <= j < |results| ==> !Ends(results[j])
      ensures outcome != StillOpen ==> !isAssistantActive && !isStreaming
      ensures outcome == StillOpen ==> isAssistantActive == old(isAssistantActive) && isStreaming == old(isStreaming)
      ensures outcome == Failed ==> !isLoading
      ensures var seen := results[..ReadsPerformed(results)];
              && (outcome == Failed ==> robotMessage == "Error: " + seen[|seen| - 1].reason)
              && (outcome != Failed ==>
                    && robotMessage == (if AnyValue(seen) then Decoded(seen, decode) else old(robotMessage))
                    && isLoading == (old(isLoading) && !AnyValue(seen)))
    {
      var i, done, failure := ConsumeReads(results, decode);
      ReadsPerformedUnique(results, i);
      StreamEndStillOpen(results);
      if failure.Some? {
        Fail(failure.value);
        outcome := Failed;
      } else if done {
        isStreaming := false;
        isAssistantActive := false;
        outcome := Completed;
      } else {
        outcome := StillOpen;
      }
    }

    /**
     * The `while (!done)` loop itself: reads in order until one is done or fails,
     * or until no read is left. `i` is how many were taken.
     */
    method ConsumeReads(results: seq<ReadResult>, decode: seq<byte> -> string)
      returns (i: nat, done: bool, failure: Option<string>)
      modifies this
      ensures i <= |results|
      ensures i == 0 ==> !done && failure.None?
      ensures forall j :: 0 <= j < i - 1 ==> !Ends(results[j])
      ensures i > 0 ==> (failure.Some? <==> results[i - 1].ReadFailed?)
      ensures i > 0 && results[i - 1].Read? ==> done == results[i - 1].done
      ensures failure.Some? ==> i > 0 && results[i - 1] == ReadFailed(failure.value) && !done
      ensures !done && failure.None? ==> i == |results|
      ensures robotMessage == (if AnyValue(results[..i]) then Decoded(results[..i], decode) else old(robotMessage))
      ensures isLoading == (old(isLoading) && !AnyValue(results[..i]))
      ensures isStreaming == old(isStreaming) && isAssistantActive == old(isAssistantActive)
      ensures message == old(message)
    {
      done := false;
      failure := None;
      var assistantMessage := "";
      var isFirstChunk := true;
      i := 0;
      while !done && failure.None? && i < |results|
        invariant 0 <= i <= |results|
        invariant i == 0 ==> !done && failure.None?
        invariant forall j :: 0 <= j < i - 1 ==> !Ends(results[j])
        invariant i > 0 ==> (failure.Some? <==> results[i - 1].ReadFailed?)
        invariant i > 0 && results[i - 1].Read? ==> done == results[i - 1].done
        invariant failure.Some? ==> i > 0 && results[i - 1] == ReadFailed(failure.value) && !done
        invariant assistantMessage == DecodedUpTo(results, i, decode)
        invariant isFirstChunk == !ChunkBy(results, i)
        invariant robotMessage == (if isFirstChunk then old(robotMessage) else assistantMessage)
        invariant isLoading == (old(isLoading) && isFirstChunk)
        invariant isStreaming == old(isStreaming) && isAssistantActive == old(isAssistantActive)
        invariant message == old(message)
      {
        var r := results[i];
        i := i + 1;
        match r
        case ReadFailed(reason) =>
          failure := Some(reason);
        case Read(value, doneReading) =>
          done := doneReading;
          if value.Some? {
            var chunk := decode(value.value);
            assistantMessage := assistantMessage + chunk;
            robotMessage := assistantMessage;
            if isFirstChunk {
              isLoading := false;
              isFirstChunk := false;
            }
          }
      }
      DecodedUpToIsPrefix(results, i, decode);
      ChunkByIsPrefix(results, i);
    }
  }

  /** Every preset prompt is sent when clicked while nothing streams. */
  lemma PresetPromptsAreNotBlank()
    ensures forall p :: p in PromptExamples ==> !Js.IsBlank(p)
  {
    forall p | p in PromptExamples ensures !Js.IsBlank(p) {
      assert !Js.IsSpace(p[0]);
    }
  }

  /** A streamed answer in two chunks is shown whole, and the assistant settles. */
  method StreamedAnswerScenario(env: Config.Env)
  {
    var decode := (b: seq<byte>) => if b == [1] then "Hel" else "lo";
    var results := [Read(Some([1]), false), Read(Some([2]), false), Read(None, true)];
    assert ReadsPerformed(results) == 3 && results[..3] == results;
    assert Decoded(results, decode) == "Hel" + "lo";
    assert AnyValue(results) by { assert HasValue(results[0]); }
    assert !Js.IsBlank("Hi") by { assert !Js.IsSpace("Hi"[0]); }
    var a := new Assistant();
    a.SetMessage("Hi");
    var request := a.HandleSubmit(None, env);
    assert request.Some? && request.value.body.query == "Hi";
    var outcome := a.Receive(Http(200, results), decode);
    assert outcome == Completed && a.robotMessage == "Hel" + "lo";
    assert !a.isStreaming && !a.isLoading && !a.isAssistantActive;
  }

  /** A 500 shows a diagnostic naming the status, and the next submission is accepted again. */
  method ServerErrorScenario(env: Config.Env)
  {
    assert Js.Decimal(500) == "500" by {
      assert Js.Decimal(5) == "5";
      assert Js.Decimal(50) == Js.Decimal(5) + "0";
      assert Js.Decimal(500) == Js.Decimal(50) + "0";
    }
    var shown := "Error: " + HttpErrorMessage(500);
    assert shown == "Error: " + "HTTP error! status: " + "500";
    assert !Js.IsBlank("hello") by { assert !Js.IsSpace('h'); assert "hello"[0] == 'h'; }
    var a := new Assistant();
    a.SetMessage("hello");
    var first := a.HandleSubmit(None, env);
    var outcome := a.Receive(Http(500, []), (b: seq<byte>) => "");
    assert outcome == Failed && a.robotMessage == shown;
    assert !a.isStreaming && !a.isLoading && !a.isAssistantActive;
    var second := a.HandleSubmit(None, env);
    assert second.Some? && a.robotMessage == "";
  }

  /** While one answer streams, a second submission is dropped. */
  method SingleFlightScenario(env: Config.Env)
  {
    var a := new Assistant();
    a.SetMessage("x");
    assert !Js.IsSpace(a.message[0]);
    var first := a.HandleSubmit(None, env);
    assert first.Some? && first.value.body.query == "x";
    a.SetMessage("y");
    var second := a.HandleSubmit(None, env);
    assert second.None? && a.isStreaming && a.robotMessage == "";
  }

  /** A preset prompt goes into the input and is sent as the query. */
  method PresetPromptScenario(env: Config.Env)
  {
    var a := new Assistant();
    PresetPromptsAreNotBlank();
    var prompt := PromptExamples[3];
    assert prompt in PromptExamples;
    var request := a.HandlePromptClick(prompt, env);
    assert a.message == "Tell me about your projects.";
    assert request.Some? && request.value.body == GenerateBody("Tell me about your projects.", true, []);
  }
}
