/**
 * The language-model service: validation of the parsed reply, the choice of provider, credential and model, and the retry loop
 * that turns replies into a batch of note records.
 *
 * The SDK calls, the environment lookup and time.sleep are replaced by
 * inputs and outputs: the environment is a map, the replies of the backend
 * are a sequence with one entry per call, and the sleeps are returned as a
 * trace of delays.
 */
module LlmService {
  import opened Wrappers
  import opened Text
  import opened Json
  import opened AnalysisPrompt

  // ---------------------------------------------------------------------------
  // Validation of the parsed reply
  // ---------------------------------------------------------------------------

  /** A title or summary: a string whose strip() is non-empty, that is (by
      IsTextIff) a string that is not all whitespace. */
  predicate IsText(j: Json) {
    j.JStr? && !AllSpace(j.s)
  }

  /** One note record: an object with title, summary and tags, the first two
      non-blank strings and the third a list. Other keys, and the elements of
      tags, are not looked at. */
  predicate IsNoteRecord(j: Json) {
    && j.JObj?
    && "title" in j.fields && "summary" in j.fields && "tags" in j.fields
    && IsText(j.fields["title"])
    && IsText(j.fields["summary"])
    && j.fields["tags"].JArr?
  }

  /** The loop over the notes, which stops at the first bad one. */
  predicate AllNoteRecords(notes: seq<Json>)
  {
    notes == [] || (IsNoteRecord(notes[0]) && AllNoteRecords(notes[1..]))
  }

  /** The loop accepts exactly the lists whose every element is a note record. */
  lemma {:induction false} AllNoteRecordsIff(notes: seq<Json>)
    ensures AllNoteRecords(notes) <==> forall i :: 0 <= i < |notes| ==> IsNoteRecord(notes[i])
    decreases |notes|
  {
    if notes != [] {
      AllNoteRecordsIff(notes[1..]);
      assert forall i :: 1 <= i < |notes| ==> notes[i] == notes[1..][i - 1];
    }
  }

  /** _validate_notes_data: a list whose every element is a note record. */
  predicate ValidNotesData(data: Json) {
    data.JArr? && AllNoteRecords(data.items)
  }

  /** Anything but a list is rejected; the empty list is accepted. */
  lemma ValidatorOnShapes(data: Json)
    ensures !data.JArr? ==> !ValidNotesData(data)
    ensures ValidNotesData(JArr([]))
  {
  }

  /** Validity of a batch is a conjunction over its elements. */
  lemma {:induction false} ValidConcat(xs: seq<Json>, ys: seq<Json>)
    ensures ValidNotesData(JArr(xs + ys)) <==> ValidNotesData(JArr(xs)) && ValidNotesData(JArr(ys))
    decreases |xs|
  {
    if xs == [] {
      assert xs + ys == ys;
    } else {
      assert (xs + ys)[0] == xs[0];
      assert (xs + ys)[1..] == xs[1..] + ys;
      ValidConcat(xs[1..], ys);
    }
  }

  /** One element that is not a note record anywhere in the list makes the whole
      list invalid. */
  lemma OneBadElement(xs: seq<Json>, bad: Json, ys: seq<Json>)
    requires !IsNoteRecord(bad)
    ensures !ValidNotesData(JArr(xs + [bad] + ys))
  {
    AllNoteRecordsIff(xs + [bad] + ys);
    assert (xs + [bad] + ys)[|xs|] == bad;
  }

  /** A text field is accepted exactly when its strip() is non-empty, that is
      when the string has a non-whitespace character. */
  lemma IsTextIff(s: string)
    ensures IsText(JStr(s)) <==> Strip(s) != []
    ensures IsText(JStr(s)) <==> exists i :: 0 <= i < |s| && !IsSpace(s[i])
  {
    StripShape(s);
  }

  /** Keys other than title, summary and tags do not affect acceptance. */
  lemma ExtraKeysIgnored(fields: map<string, Json>, extra: map<string, Json>)
    requires "title" !in extra && "summary" !in extra && "tags" !in extra
    ensures IsNoteRecord(JObj(fields + extra)) <==> IsNoteRecord(JObj(fields))
  {
  }

  /** The elements of tags are never looked at. */
  lemma TagElementsIgnored(fields: map<string, Json>, a: seq<Json>, b: seq<Json>)
    ensures IsNoteRecord(JObj(fields["tags" := JArr(a)])) <==> IsNoteRecord(JObj(fields["tags" := JArr(b)]))
  {
  }

  // ---------------------------------------------------------------------------
  // Provider, credential and model
  // ---------------------------------------------------------------------------

  datatype Backend = OpenAI | Anthropic | Google

  /** The configured SDK client: the backend, its credential and the model it
      will be asked for. */
  datatype Client = Client(backend: Backend, apiKey: string, modelName: string)

  /** The ValueErrors raised while configuring. */
  datatype ConfigError = MissingApiKey(variable: string) | UnsupportedProvider(provider: string)

  function ConfigErrorMessage(e: ConfigError): string
  {
    match e
    case MissingApiKey(v) => v + " not found in environment variables"
    case UnsupportedProvider(p) => "Unsupported provider: " + p
  }

  /** The provider names the service knows (after lower-casing). */
  function BackendOf(provider: string): Option<Backend>
  {
    if provider == "openai" then Some(OpenAI)
    else if provider == "anthropic" then Some(Anthropic)
    else if provider == "google" then Some(Google)
    else None
  }

  /** The environment variable that holds each backend's credential. */
  function KeyVariable(b: Backend): string
  {
    match b
    case OpenAI => "OPENAI_API_KEY"
    case Anthropic => "ANTHROPIC_API_KEY"
    case Google => "GOOGLE_API_KEY"
  }

  /** The model used when none (or an empty name) is given. */
  function DefaultModel(b: Backend): string
  {
    match b
    case OpenAI => "gpt-4o-mini"
    case Anthropic => "claude-3-5-haiku-20241022"
    case Google => "gemini-1.5-flash"
  }

  /** Python's `model or default`: None and "" are both falsy. */
  function ModelOr(model: Option<string>, default: string): string
  {
    if model.Some? && model.value != "" then model.value else default
  }

  /** What a successful configuration leaves behind: self.model and self.client. */
  datatype Configured = Configured(model: Option<string>, client: Client)

  /** The outcome of _setup_client for a (lower-cased) provider, the model
      passed to the constructor and the environment. */
  function Setup(provider: string, model: Option<string>, env: map<string, string>): Result<Configured, ConfigError>
  {
    match BackendOf(provider)
    case None => Err(UnsupportedProvider(provider))
    case Some(b) =>
      var v := KeyVariable(b);
      if v !in env || env[v] == "" then Err(MissingApiKey(v))
      else
        var name := ModelOr(model, DefaultModel(b));
        Ok(Configured(if b == Google then model else Some(name), Client(b, env[v], name)))
  }

  /** Configuration fails exactly for an unknown provider or a missing or empty
      credential, and names the cause. */
  lemma SetupErrors(provider: string, model: Option<string>, env: map<string, string>)
    ensures BackendOf(provider).None? ==> Setup(provider, model, env) == Err(UnsupportedProvider(provider))
    ensures BackendOf(provider).Some? ==>
      var v := KeyVariable(BackendOf(provider).value);
      (Setup(provider, model, env).Err? <==> v !in env || env[v] == "")
      && (Setup(provider, model, env).Err? ==> Setup(provider, model, env).error == MissingApiKey(v))
  {
  }

  /** The model after configuration: openai and anthropic fall back to their
      default, google keeps what was passed (possibly nothing) and only its
      client uses the default. */
  lemma SetupModel(provider: string, model: Option<string>, env: map<string, string>)
    requires Setup(provider, model, env).Ok?
    ensures var c := Setup(provider, model, env).value;
      && (provider == "openai" ==> c.model == Some(if model.Some? && model.value != "" then model.value else "gpt-4o-mini"))
      && (provider == "anthropic" ==> c.model == Some(if model.Some? && model.value != "" then model.value else "claude-3-5-haiku-20241022"))
      && (provider == "google" ==>
            c.model == model && c.client.modelName == (if model.Some? && model.value != "" then model.value else "gemini-1.5-flash"))
      && c.client.apiKey == env[KeyVariable(c.client.backend)] && c.client.apiKey != ""
  {
  }

  /** LLMService with the state its constructor sets up. */
  class LLMService {
    var provider: string
    var model: Option<string>
    var client: Option<Client>

    /** The assignments of __init__ before the client is set up. */
    constructor (provider: string := "openai", model: Option<string> := None)
      ensures this.provider == ToLower(provider)
      ensures this.model == model && this.client == None
    {
      this.provider := ToLower(provider);
      this.model := model;
      this.client := None;
    }

    /** _setup_client: on success the client is set and, except for google,
        the model is resolved; on error nothing changes. */
    method SetupClient(env: map<string, string>) returns (err: Option<ConfigError>)
      modifies this
      ensures provider == old(provider)
      ensures match Setup(provider, old(model), env)
        case Ok(c) => err == None && model == c.model && client == Some(c.client)
        case Err(e) => err == Some(e) && model == old(model) && client == old(client)
    {
      if provider == "openai" {
        if "OPENAI_API_KEY" !in env || env["OPENAI_API_KEY"] == "" {
          return Some(MissingApiKey("OPENAI_API_KEY"));
        }
        client := Some(Client(OpenAI, env["OPENAI_API_KEY"], ModelOr(model, "gpt-4o-mini")));
        model := Some(ModelOr(model, "gpt-4o-mini"));
      } else if provider == "anthropic" {
        if "ANTHROPIC_API_KEY" !in env || env["ANTHROPIC_API_KEY"] == "" {
          return Some(MissingApiKey("ANTHROPIC_API_KEY"));
        }
        client := Some(Client(Anthropic, env["ANTHROPIC_API_KEY"], ModelOr(model, "claude-3-5-haiku-20241022")));
        model := Some(ModelOr(model, "claude-3-5-haiku-20241022"));
      } else if provider == "google" {
        if "GOOGLE_API_KEY" !in env || env["GOOGLE_API_KEY"] == "" {
          return Some(MissingApiKey("GOOGLE_API_KEY"));
        }
        client := Some(Client(Google, env["GOOGLE_API_KEY"], ModelOr(model, "gemini-1.5-flash")));
      } else {
        return Some(UnsupportedProvider(provider));
      }
      err := None;
    }

    /** get_atomic_notes_from_text: the prompt is built once and sent on
        every attempt. `responses[k]` is what the configured backend gives on
        the k-th call; `prompts` are the prompts sent, one per call, and
        `sleeps` the delays slept, in order. */
    method GetAtomicNotesFromText(textChunk: string, responses: seq<Response>, maxRetries: int := 3)
      returns (r: Result<seq<Json>, NotesError>, prompts: seq<string>, sleeps: seq<nat>)
      requires maxRetries <= |responses|
      ensures var run := Retry(maxRetries, responses);
        r == run.result && |prompts| == run.calls && sleeps == run.sleeps
      ensures forall k :: 0 <= k < |prompts| ==> prompts[k] == BuildAnalysisPrompt(textChunk)
    {
      var prompt := BuildAnalysisPrompt(textChunk);
      r, prompts, sleeps := SendWithRetries(prompt, maxRetries, responses);
    }

    /** The `for attempt in range(max_retries)` loop of
        get_atomic_notes_from_text, sending `prompt` on each attempt. */
    method SendWithRetries(prompt: string, maxRetries: int, responses: seq<Response>)
      returns (r: Result<seq<Json>, NotesError>, prompts: seq<string>, sleeps: seq<nat>)
      requires maxRetries <= |responses|
      ensures var run := Retry(maxRetries, responses);
        r == run.result && |prompts| == run.calls && sleeps == run.sleeps
      ensures forall k :: 0 <= k < |prompts| ==> prompts[k] == prompt
    {
      prompts, sleeps := [], [];
      var attempt := 0;
      while attempt < maxRetries
        invariant 0 <= attempt && (if maxRetries > 0 then attempt < maxRetries else attempt == 0)
        invariant maxRetries > 0 ==> Retry(maxRetries, responses) == RetryFrom(attempt, maxRetries, responses)
        invariant |prompts| == attempt && sleeps == Backoff(attempt)
        invariant forall k :: 0 <= k < attempt ==> prompts[k] == prompt
      {
        prompts := prompts + [prompt];
        var response := responses[attempt];
        var notes := Accepted(response);
        if notes.Some? {
          return Ok(notes.value), prompts, sleeps;
        }
        if attempt == maxRetries - 1 {
          return Err(Exhausted(maxRetries, response)), prompts, sleeps;
        }
        sleeps := sleeps + [Pow2(attempt)];
        attempt := attempt + 1;
      }
      r := Err(UnexpectedError);
    }
  }

  /** Configure a service as LLMService(provider, model) does: lower-case the
      provider, then set up the client, failing with the ValueError raised. */
  method NewLLMService(env: map<string, string>, provider: string := "openai", model: Option<string> := None)
    returns (r: Result<LLMService, ConfigError>)
    ensures match Setup(ToLower(provider), model, env)
      case Ok(c) => r.Ok? && fresh(r.value) && r.value.provider == ToLower(provider)
                    && r.value.model == c.model && r.value.client == Some(c.client)
      case Err(e) => r == Err(e)
  {
    var service := new LLMService(provider, model);
    var err := service.SetupClient(env);
    if err.Some? {
      r := Err(err.value);
    } else {
      r := Ok(service);
    }
  }

  // ---------------------------------------------------------------------------
  // The retry loop
  // ---------------------------------------------------------------------------

  /** What one call to the backend comes to: the SDK raised (with its message),
      the reply did not parse as JSON, or it parsed to a value. */
  datatype Response = BackendErr(message: string) | Unparseable | Parsed(data: Json)

  /** The exceptions get_atomic_notes_from_text raises. */
  datatype NotesError =
    | InvalidJsonAfterRetries(attempts: int)
    | NoResponseAfterRetries(attempts: int, cause: string)
    | UnexpectedError

  function NotesErrorMessage(e: NotesError): string
  {
    match e
    case InvalidJsonAfterRetries(n) =>
      "Failed to get valid JSON response after " + IntToString(n) + " attempts"
    case NoResponseAfterRetries(n, cause) =>
      "Failed to get response from LLM after " + IntToString(n) + " attempts: " + cause
    case UnexpectedError =>
      "Unexpected error in get_atomic_notes_from_text"
  }

  /** The message of the ValueError raised for a reply that fails validation. */
  const InvalidStructure: string := "Invalid response structure from LLM"

  /** The notes an attempt yields, if it succeeds: a reply that parses and
      passes validation. */
  function Accepted(response: Response): (notes: Option<seq<Json>>)
    ensures notes.Some? <==> response.Parsed? && ValidNotesData(response.data)
    ensures notes.Some? ==> notes.value == response.data.items
  {
    match response
    case Parsed(data) => if ValidNotesData(data) then Some(data.items) else None
    case _ => None
  }

  /** The exception raised when the last of n attempts fails with `last`: a
      JSON parse failure has its own message; a backend error or a reply that
      fails validation is reported with its cause. */
  function Exhausted(n: int, last: Response): NotesError
  {
    match last
    case Unparseable => InvalidJsonAfterRetries(n)
    case BackendErr(message) => NoResponseAfterRetries(n, message)
    case Parsed(_) => NoResponseAfterRetries(n, InvalidStructure)
  }

  /** The observable course of one call of get_atomic_notes_from_text: what it
      returns or raises, how many backend calls it makes, and what it sleeps. */
  datatype Run = Run(result: Result<seq<Json>, NotesError>, calls: nat, sleeps: seq<nat>)

  /** The retry protocol from attempt `attempt` on, with Backoff(attempt) slept
      so far. */
  function RetryFrom(attempt: nat, maxRetries: int, responses: seq<Response>): Run
    requires attempt < maxRetries <= |responses|
    decreases maxRetries - attempt
  {
    match Accepted(responses[attempt])
    case Some(notes) => Run(Ok(notes), attempt + 1, Backoff(attempt))
    case None =>
      if attempt == maxRetries - 1
      then Run(Err(Exhausted(maxRetries, responses[attempt])), attempt + 1, Backoff(attempt))
      else RetryFrom(attempt + 1, maxRetries, responses)
  }

  /** The retry protocol for max_retries attempts. */
  function Retry(maxRetries: int, responses: seq<Response>): Run
    requires maxRetries <= |responses|
  {
    if maxRetries <= 0 then Run(Err(UnexpectedError), 0, []) else RetryFrom(0, maxRetries, responses)
  }

  /** From attempt `attempt` on: the run ends at the first accepted response,
      returning its notes, or fails after the last attempt; every call before
      the last one failed, and the delays are exactly 2^k after each failed
      attempt k except the last. */
  lemma {:induction false} RetryFromShape(attempt: nat, maxRetries: int, responses: seq<Response>)
    requires attempt < maxRetries <= |responses|
    ensures var run := RetryFrom(attempt, maxRetries, responses);
      && attempt < run.calls <= maxRetries
      && run.sleeps == Backoff(run.calls - 1)
      && (forall k :: attempt <= k < run.calls - 1 ==> Accepted(responses[k]).None?)
      && (run.result.Ok? <==> exists k :: attempt <= k < maxRetries && Accepted(responses[k]).Some?)
      && (run.result.Ok? ==> Accepted(responses[run.calls - 1]) == Some(run.result.value))
      && (run.result.Err? ==>
            run.calls == maxRetries && run.result.error == Exhausted(maxRetries, responses[maxRetries - 1]))
    decreases maxRetries - attempt
  {
    if Accepted(responses[attempt]).None? && attempt < maxRetries - 1 {
      RetryFromShape(attempt + 1, maxRetries, responses);
      var run := RetryFrom(attempt + 1, maxRetries, responses);
      if run.result.Ok? {
        var k :| attempt + 1 <= k < maxRetries && Accepted(responses[k]).Some?;
      }
    }
  }

  /** The properties of the retry loop over all max_retries attempts. The
      first accepted response is returned and no call follows it; backend
      errors, unparseable and invalid replies share the one attempt budget;
      after a failed attempt k that is not the last the loop sleeps 2^k, and
      after the last it raises the error that the last failure decides; with
      max_retries <= 0 no call is made. */
  lemma RetryProperties(maxRetries: int, responses: seq<Response>)
    requires maxRetries <= |responses|
    ensures var run := Retry(maxRetries, responses);
      && (maxRetries <= 0 ==> run == Run(Err(UnexpectedError), 0, []))
      && (maxRetries > 0 ==> 1 <= run.calls <= maxRetries && run.sleeps == Backoff(run.calls - 1))
      && (forall k :: 0 <= k < run.calls - 1 ==> Accepted(responses[k]).None?)
      && (run.result.Ok? <==> exists k :: 0 <= k < maxRetries && Accepted(responses[k]).Some?)
      && (run.result.Ok? ==> Accepted(responses[run.calls - 1]) == Some(run.result.value))
      && (run.result.Err? && maxRetries > 0 ==>
            run.calls == maxRetries && run.result.error == Exhausted(maxRetries, responses[maxRetries - 1]))
  {
    if maxRetries > 0 {
      RetryFromShape(0, maxRetries, responses);
    }
  }

  /** When every attempt fails, max_retries calls are made and the total delay
      is 2^(max_retries - 1) - 1. */
  lemma RetryExhaustion(maxRetries: int, responses: seq<Response>)
    requires 0 < maxRetries <= |responses|
    requires forall k :: 0 <= k < maxRetries ==> Accepted(responses[k]).None?
    ensures var run := Retry(maxRetries, responses);
      && run.calls == maxRetries
      && run.result == Err(Exhausted(maxRetries, responses[maxRetries - 1]))
      && Sum(run.sleeps) == Pow2(maxRetries - 1) - 1
  {
    RetryProperties(maxRetries, responses);
    TotalBackoff(maxRetries - 1);
  }

  /** A reply that does not parse followed by a valid batch: the batch is
      returned after two calls, with one sleep of 1 in between, and the
      remaining attempt is not used. */
  lemma RecoveryAfterMalformedReply(batch: seq<Json>, later: seq<Response>)
    requires ValidNotesData(JArr(batch))
    requires |later| >= 1
    ensures var run := Retry(3, [Unparseable, Parsed(JArr(batch))] + later);
      run.result == Ok(batch) && run.calls == 2 && run.sleeps == [1]
  {
    var responses := [Unparseable, Parsed(JArr(batch))] + later;
    assert responses[0] == Unparseable && responses[1] == Parsed(JArr(batch));
    assert Accepted(responses[1]) == Some(batch);
    assert Backoff(1) == [1];
  }

  function Pow2(k: nat): (p: nat)
    ensures p >= 1
  {
    if k == 0 then 1 else 2 * Pow2(k - 1)
  }

  /** The delays slept after the first n failed attempts. */
  function Backoff(n: nat): (delays: seq<nat>)
    ensures |delays| == n
    ensures forall k :: 0 <= k < n ==> delays[k] == Pow2(k)
  {
    if n == 0 then [] else Backoff(n - 1) + [Pow2(n - 1)]
  }

  function Sum(xs: seq<nat>): nat
  {
    if xs == [] then 0 else xs[0] + Sum(xs[1..])
  }

  lemma {:induction false} SumAppend(xs: seq<nat>, x: nat)
    ensures Sum(xs + [x]) == Sum(xs) + x
    decreases |xs|
  {
    if xs != [] {
      assert (xs + [x])[1..] == xs[1..] + [x];
      SumAppend(xs[1..], x);
    }
  }

  /** Exhausting n attempts sleeps 1 + 2 + ... + 2^(n-2) = 2^(n-1) - 1 in all. */
  lemma {:induction false} TotalBackoff(n: nat)
    ensures Sum(Backoff(n)) == Pow2(n) - 1
    decreases n
  {
    if n > 0 {
      TotalBackoff(n - 1);
      SumAppend(Backoff(n - 1), Pow2(n - 1));
    }
  }
}
