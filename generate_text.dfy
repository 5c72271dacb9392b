/**
 * app/repositories/gen_text/generate_text.py: the provider and
 * configuration checks of `_generate_response`, the cleanup
 * `format_response` applies to a script, and the bounded retry loops of
 * `generate_script` and `generate_terms`. The language model is an oracle:
 * `llm(i, prompt)` is its reply to the i-th call with that prompt. JSON
 * decoding is an oracle too: `parse(text)` is `json.loads(text)`, `None`
 * when it raises.
 */
module GenerateText {
  import opened Wrappers
  import opened Text

  // ---------------------------------------------------------------------
  // `format_response`
  // ---------------------------------------------------------------------

  function FirstIndex(s: string, ch: char): (i: nat)
    requires ch in s
    ensures i < |s| && s[i] == ch && forall k :: 0 <= k < i ==> s[k] != ch
    decreases |s|
  {
    if s[0] == ch then 0
    else
      assert ch in s[1..] by { var k :| 0 <= k < |s| && s[k] == ch; assert s[1..][k - 1] == ch; }
      1 + FirstIndex(s[1..], ch)
  }

  function LastIndex(s: string, ch: char): (i: nat)
    requires ch in s
    ensures i < |s| && s[i] == ch && forall k :: i < k < |s| ==> s[k] != ch
    decreases |s|
  {
    if s[|s| - 1] == ch then |s| - 1
    else
      assert ch in s[..|s| - 1] by { var k :| 0 <= k < |s| && s[k] == ch; assert s[..|s| - 1][k] == ch; }
      LastIndex(s[..|s| - 1], ch)
  }

  /** No `open` in the line comes before a `close`. */
  predicate NoPair(line: string, open: char, close: char)
  {
    forall i, j :: 0 <= i < j < |line| && line[i] == open ==> line[j] != close
  }

  /** `re.sub(r"\[.*\]", "", ...)` on one line (the pattern's `.` does not
      match a newline): the greedy match runs from the first opener to the
      last closer, and no other match fits after it. */
  function SubLine(line: string, open: char, close: char): string
  {
    if open in line && close in line && FirstIndex(line, open) < LastIndex(line, close) then
      line[..FirstIndex(line, open)] + line[LastIndex(line, close) + 1..]
    else line
  }

  function Lines(s: string): seq<string>
  {
    Split(s, "\n")
  }

  function SubLines(lines: seq<string>, open: char, close: char): seq<string>
  {
    seq(|lines|, k requires 0 <= k < |lines| => SubLine(lines[k], open, close))
  }

  /** The substitution on the whole text: line by line. */
  function SubGreedy(s: string, open: char, close: char): string
  {
    Join(SubLines(Lines(s), open, close), "\n")
  }

  predicate AllLinesNoPair(s: string, open: char, close: char)
  {
    forall k :: 0 <= k < |Lines(s)| ==> NoPair(Lines(s)[k], open, close)
  }

  /** `response.replace("*", "").replace("#", "")`. */
  function StripMarkup(r: string): string
  {
    Replace(Replace(r, "*", ""), "#", "")
  }

  /** `format_response`: markdown stars and hashes go, then bracketed and
      parenthesised spans, and the paragraphs are split at blank lines and
      joined again. */
  function FormatResponse(response: string): string
  {
    var t := SubGreedy(SubGreedy(StripMarkup(response), '[', ']'), '(', ')');
    Join(Split(t, "\n\n"), "\n\n")
  }

  lemma SubLineNoPair(line: string, open: char, close: char)
    requires open != close
    ensures NoPair(SubLine(line, open, close), open, close)
  {
    if open in line && close in line {
      var i, j := FirstIndex(line, open), LastIndex(line, close);
      if i < j {
        var r := line[..i] + line[j + 1..];
        forall p, q | 0 <= p < q < |r| && r[p] == open ensures r[q] != close {
          if p >= i {
            assert r[q] == line[q - i + j + 1];
          }
        }
      }
    }
  }

  /** Cutting a piece out of a line never creates a pair. */
  lemma CutKeepsNoPair(line: string, i: nat, j: nat, open: char, close: char)
    requires i <= j < |line| && NoPair(line, open, close)
    ensures NoPair(line[..i] + line[j + 1..], open, close)
  {
    var r := line[..i] + line[j + 1..];
    forall p, q | 0 <= p < q < |r| && r[p] == open ensures r[q] != close {
      var p' := if p < i then p else p - i + j + 1;
      var q' := if q < i then q else q - i + j + 1;
      assert r[p] == line[p'] && r[q] == line[q'] && p' < q';
    }
  }

  lemma SubLineKeepsNoPair(line: string, open: char, close: char, open2: char, close2: char)
    requires NoPair(line, open2, close2)
    ensures NoPair(SubLine(line, open, close), open2, close2)
  {
    if open in line && close in line && FirstIndex(line, open) < LastIndex(line, close) {
      CutKeepsNoPair(line, FirstIndex(line, open), LastIndex(line, close), open2, close2);
    }
  }

  /** Cutting a piece out of a line adds no character. */
  lemma CutChars(line: string, i: nat, j: nat, ch: char)
    requires i <= j < |line| && ch in line[..i] + line[j + 1..]
    ensures ch in line
  {
    var r := line[..i] + line[j + 1..];
    var p :| 0 <= p < |r| && r[p] == ch;
    if p < i {
      assert line[p] == ch;
    } else {
      assert line[p - i + j + 1] == ch;
    }
  }

  lemma SubLineChars(line: string, open: char, close: char, ch: char)
    requires ch in SubLine(line, open, close)
    ensures ch in line
  {
    if open in line && close in line && FirstIndex(line, open) < LastIndex(line, close) {
      CutChars(line, FirstIndex(line, open), LastIndex(line, close), ch);
    }
  }

  lemma SubLineOfNoPair(line: string, open: char, close: char)
    requires open != close && NoPair(line, open, close)
    ensures SubLine(line, open, close) == line
  {
  }

  /** The lines of the result are the substituted lines of the input. */
  lemma SubGreedyLines(s: string, open: char, close: char)
    ensures Lines(SubGreedy(s, open, close)) == SubLines(Lines(s), open, close)
  {
    var ls := SubLines(Lines(s), open, close);
    SplitPartsAvoid(s, '\n');
    forall k | 0 <= k < |ls| ensures '\n' !in ls[k] {
      if '\n' in ls[k] {
        SubLineChars(Lines(s)[k], open, close, '\n');
      }
    }
    SplitJoin(ls, '\n');
  }

  lemma SubGreedyNoPair(s: string, open: char, close: char)
    requires open != close
    ensures AllLinesNoPair(SubGreedy(s, open, close), open, close)
  {
    SubGreedyLines(s, open, close);
    forall k | 0 <= k < |Lines(s)| {
      SubLineNoPair(Lines(s)[k], open, close);
    }
  }

  lemma SubGreedyKeepsNoPair(s: string, open: char, close: char, open2: char, close2: char)
    requires AllLinesNoPair(s, open2, close2)
    ensures AllLinesNoPair(SubGreedy(s, open, close), open2, close2)
  {
    SubGreedyLines(s, open, close);
    forall k | 0 <= k < |Lines(s)| {
      SubLineKeepsNoPair(Lines(s)[k], open, close, open2, close2);
    }
  }

  /** The substitution only deletes characters; the newlines stay. */
  lemma SubGreedyChars(s: string, open: char, close: char, ch: char)
    requires ch in SubGreedy(s, open, close) && ch != '\n'
    ensures ch in s
  {
    var ls := SubLines(Lines(s), open, close);
    JoinChars(ls, "\n", ch);
    var k :| 0 <= k < |ls| && ch in ls[k];
    SubLineChars(Lines(s)[k], open, close, ch);
    SplitPartChars(s, "\n", k, ch);
  }

  lemma SubGreedyOfClean(s: string, open: char, close: char)
    requires open != close && AllLinesNoPair(s, open, close)
    ensures SubGreedy(s, open, close) == s
  {
    forall k | 0 <= k < |Lines(s)| ensures SubLines(Lines(s), open, close)[k] == Lines(s)[k] {
      SubLineOfNoPair(Lines(s)[k], open, close);
    }
    assert SubLines(Lines(s), open, close) == Lines(s);
    JoinSplit(s, "\n");
  }

  lemma StripMarkupRemoves(r: string)
    ensures '*' !in StripMarkup(r) && '#' !in StripMarkup(r)
  {
    ReplaceRemovesChar(r, '*', "");
    ReplaceRemovesChar(Replace(r, "*", ""), '#', "");
    if '*' in StripMarkup(r) {
      ReplaceChars(Replace(r, "*", ""), "#", "", '*');
    }
  }

  /** The formatted text holds no '*' and no '#'. */
  lemma FormatResponseNoMarkup(response: string)
    ensures '*' !in FormatResponse(response) && '#' !in FormatResponse(response)
  {
    var t0 := StripMarkup(response);
    var t1 := SubGreedy(t0, '[', ']');
    var t2 := SubGreedy(t1, '(', ')');
    StripMarkupRemoves(response);
    JoinSplit(t2, "\n\n");
    if '*' in t2 {
      SubGreedyChars(t1, '(', ')', '*');
      SubGreedyChars(t0, '[', ']', '*');
    }
    if '#' in t2 {
      SubGreedyChars(t1, '(', ')', '#');
      SubGreedyChars(t0, '[', ']', '#');
    }
  }

  /** No line of the formatted text has a '[' before a ']' or a '(' before a ')'. */
  lemma FormatResponseNoPairs(response: string)
    ensures AllLinesNoPair(FormatResponse(response), '[', ']')
    ensures AllLinesNoPair(FormatResponse(response), '(', ')')
  {
    var t1 := SubGreedy(StripMarkup(response), '[', ']');
    var t2 := SubGreedy(t1, '(', ')');
    SubGreedyNoPair(StripMarkup(response), '[', ']');
    SubGreedyKeepsNoPair(t1, '(', ')', '[', ']');
    SubGreedyNoPair(t1, '(', ')');
    JoinSplit(t2, "\n\n");
  }

  /** Formatting a formatted text changes nothing. */
  lemma FormatResponseIdempotent(response: string)
    ensures FormatResponse(FormatResponse(response)) == FormatResponse(response)
  {
    var u := FormatResponse(response);
    FormatResponseNoMarkup(response);
    FormatResponseNoPairs(response);
    MissingFirstCharNotSubstring("*", u);
    ReplaceAbsent(u, "*", "");
    MissingFirstCharNotSubstring("#", u);
    ReplaceAbsent(u, "#", "");
    assert StripMarkup(u) == u;
    SubGreedyOfClean(u, '[', ']');
    SubGreedyOfClean(u, '(', ')');
    JoinSplit(u, "\n\n");
  }

  /** Text with no markup character is left as it is. */
  lemma FormatResponseOfPlain(t: string)
    requires '*' !in t && '#' !in t && '[' !in t && '(' !in t
    ensures FormatResponse(t) == t
  {
    MissingFirstCharNotSubstring("*", t);
    ReplaceAbsent(t, "*", "");
    MissingFirstCharNotSubstring("#", t);
    ReplaceAbsent(t, "#", "");
    assert StripMarkup(t) == t;
    forall k | 0 <= k < |Lines(t)| ensures '[' !in Lines(t)[k] && '(' !in Lines(t)[k] {
      if '[' in Lines(t)[k] {
        SplitPartChars(t, "\n", k, '[');
      }
      if '(' in Lines(t)[k] {
        SplitPartChars(t, "\n", k, '(');
      }
    }
    SubGreedyOfClean(t, '[', ']');
    SubGreedyOfClean(t, '(', ')');
    JoinSplit(t, "\n\n");
  }

  // ---------------------------------------------------------------------
  // `_generate_response`
  // ---------------------------------------------------------------------

  const MaxRetries: nat := 5

  /** The settings `_generate_response` reads. */
  datatype Settings = Settings(
    llmProvider: string,
    openApiKey: string, openaiBaseUrl: string, openaiModelName: string,
    geminiApiKey: string, geminiBaseUrl: string, geminiModelName: string)

  /** The provider, key, model and base URL a client is built with. */
  datatype Client = Client(provider: string, apiKey: string, modelName: string, baseUrl: string)

  const OpenAiDefaultBaseUrl: string := "https://api.openai.com/v1"
  const GeminiBaseUrl: string := "***"
  const ProviderNotSet: string := "llm_provider is not set, please set it in the config.toml file."

  function ApiKeyNotSet(provider: string): string { provider + ": api_key is not set." }
  function ModelNameNotSet(provider: string): string { provider + ": model_name is not set ." }
  function BaseUrlNotSet(provider: string): string { provider + ": base_url is not set." }

  /** The validation at the top of `_generate_response`: the provider first,
      then the key, the model name and the base URL, each failure a
      `ValueError` with its message. */
  function ResolveClient(s: Settings): Result<Client, string>
  {
    var c :=
      if s.llmProvider == "openai" then
        Some(Client("openai", s.openApiKey, s.openaiModelName,
                    if s.openaiBaseUrl == "" then OpenAiDefaultBaseUrl else s.openaiBaseUrl))
      else if s.llmProvider == "gemini" then
        Some(Client("gemini", s.geminiApiKey, s.geminiModelName, GeminiBaseUrl))
      else None;
    if c.None? then Err(ProviderNotSet)
    else if c.value.apiKey == "" then Err(ApiKeyNotSet(s.llmProvider))
    else if c.value.modelName == "" then Err(ModelNameNotSet(s.llmProvider))
    else if c.value.baseUrl == "" then Err(BaseUrlNotSet(s.llmProvider))
    else Ok(c.value)
  }

  /** The key and model name of the configured provider. */
  function ProviderKey(s: Settings): string
  {
    if s.llmProvider == "openai" then s.openApiKey else s.geminiApiKey
  }

  function ProviderModel(s: Settings): string
  {
    if s.llmProvider == "openai" then s.openaiModelName else s.geminiModelName
  }

  /** The configuration is rejected exactly when the provider is unknown or
      its key or model name is empty, with the first failing check's
      message; the base URL check can never fail, since OpenAI falls back
      to its public URL and Gemini's is fixed. */
  lemma ResolveClientSpec(s: Settings)
    ensures ResolveClient(s).Err? <==>
      (s.llmProvider != "openai" && s.llmProvider != "gemini") || ProviderKey(s) == "" || ProviderModel(s) == ""
    ensures (s.llmProvider != "openai" && s.llmProvider != "gemini") ==> ResolveClient(s) == Err(ProviderNotSet)
    ensures (s.llmProvider == "openai" || s.llmProvider == "gemini") && ProviderKey(s) == "" ==>
      ResolveClient(s) == Err(ApiKeyNotSet(s.llmProvider))
    ensures (s.llmProvider == "openai" || s.llmProvider == "gemini") && ProviderKey(s) != "" && ProviderModel(s) == "" ==>
      ResolveClient(s) == Err(ModelNameNotSet(s.llmProvider))
    ensures ResolveClient(s).Err? ==> ResolveClient(s).error != BaseUrlNotSet(s.llmProvider)
    ensures ResolveClient(s).Ok? ==>
      var c := ResolveClient(s).value;
      && c.provider == s.llmProvider && c.apiKey == ProviderKey(s) && c.modelName == ProviderModel(s)
      && c.baseUrl != ""
      && (c.provider == "openai" ==> c.baseUrl == if s.openaiBaseUrl == "" then OpenAiDefaultBaseUrl else s.openaiBaseUrl)
      && (c.provider == "gemini" ==> c.baseUrl == GeminiBaseUrl)
  {
    if s.llmProvider == "openai" || s.llmProvider == "gemini" {
      var p := s.llmProvider;
      assert ApiKeyNotSet(p)[|p| + 2] == 'a' && ModelNameNotSet(p)[|p| + 2] == 'm';
      assert BaseUrlNotSet(p)[|p| + 2] == 'b';
    } else {
      var b := BaseUrlNotSet(s.llmProvider);
      if |ProviderNotSet| == |b| {
        assert ProviderNotSet[|ProviderNotSet| - 2] == 'e';
        assert b[|b| - 2] == 't';
      }
    }
  }

  /** What the client call brings back. For OpenAI: a completion with its
      message text, a falsy response, a truthy object that is not a
      completion (carried as its `str()`, which the message interpolates),
      or an exception with its text. For Gemini: the first
      candidate's first part's text, or (for the middle two) a reply
      without one. */
  datatype Reply = Content(text: string) | NoResponse | Invalid(shown: string) | Raised(message: string)

  /** Python's text for the `UnboundLocalError` raised when `generated_text`
      was never bound. */
  const UnboundGeneratedText: string := "cannot access local variable 'generated_text' where it is not associated with a value"

  /** `_generate_response(prompt)`, with `reply` the provider's answer to
      it; every failure becomes a string starting "Error: ". */
  function GenerateResponse(s: Settings, reply: Reply): string
  {
    match ResolveClient(s)
    case Err(m) => "Error: " + m
    case Ok(c) =>
      match reply
      case Raised(m) => "Error: " + m
      case Content(t) => if c.provider == "gemini" then t else Replace(t, "\n", "")
      case NoResponse =>
        if c.provider == "gemini" then "Error: " + UnboundGeneratedText
        else "Error: [" + c.provider + "] returned an empty response, please check your network connection and try again."
      case Invalid(shown) =>
        if c.provider == "gemini" then "Error: " + UnboundGeneratedText
        else "Error: [" + c.provider + "] returned an invalid response: \"" + shown
             + "\", please check your network connection and try again."
  }

  lemma ErrorPrefix(m: string)
    ensures StartsWith("Error: " + m, "Error: ") && IsSubstring("Error: ", "Error: " + m)
  {
    assert ("Error: " + m)[..7] == "Error: ";
  }

  /** A rejected configuration never reaches the provider: the answer is
      the error text, whatever the reply would have been. Every other
      failure is an error text as well. */
  lemma ResponseErrors(s: Settings, reply: Reply)
    ensures ResolveClient(s).Err? ==> GenerateResponse(s, reply) == "Error: " + ResolveClient(s).error
    ensures !reply.Content? || ResolveClient(s).Err? ==> StartsWith(GenerateResponse(s, reply), "Error: ")
  {
    if ResolveClient(s).Err? {
      ErrorPrefix(ResolveClient(s).error);
    } else if !reply.Content? {
      FailedReplyIsError(s, reply);
    }
  }

  lemma FailedReplyIsError(s: Settings, reply: Reply)
    requires ResolveClient(s).Ok? && !reply.Content?
    ensures StartsWith(GenerateResponse(s, reply), "Error: ")
  {
    var c := ResolveClient(s).value;
    var r := GenerateResponse(s, reply);
    match reply
    case Raised(m) => ErrorPrefix(m);
    case NoResponse =>
      if c.provider == "gemini" { ErrorPrefix(UnboundGeneratedText); }
      else { assert r[..7] == "Error: "; }
    case Invalid(_) =>
      if c.provider == "gemini" { ErrorPrefix(UnboundGeneratedText); }
      else { assert r[..7] == "Error: "; }
  }

  /** OpenAI's content comes back with every newline removed. */
  lemma OpenAiContentHasNoNewline(s: Settings, t: string)
    requires ResolveClient(s).Ok? && s.llmProvider == "openai"
    ensures '\n' !in GenerateResponse(s, Content(t))
    ensures '\n' !in t ==> GenerateResponse(s, Content(t)) == t
  {
    ResolveClientSpec(s);
    ReplaceRemovesChar(t, '\n', "");
    if '\n' !in t {
      MissingFirstCharNotSubstring("\n", t);
      ReplaceAbsent(t, "\n", "");
    }
  }

  // ---------------------------------------------------------------------
  // `generate_script`
  // ---------------------------------------------------------------------

  const LanguageLine: string := "\n- language: "

  /** The prompt: the formatted template, with the language line when a language is given. */
  function ScriptPrompt(template: string, language: string): (p: string)
  {
    if language != "" then template + LanguageLine + language else template
  }

  lemma ScriptPromptSpec(template: string, language: string)
    ensures StartsWith(ScriptPrompt(template, language), template)
    ensures ScriptPrompt(template, language) != template <==> language != ""
    ensures language != "" ==> ScriptPrompt(template, language)[|template|..] == LanguageLine + language
  {
    var p := ScriptPrompt(template, language);
    assert p[..|template|] == template;
    if language != "" {
      assert |p| > |template|;
    }
  }

  /** What one attempt leaves in `final_script`: the formatted response,
      or nothing when the response is empty. */
  function AttemptScript(s: Settings, llm: (nat, string) -> Reply, prompt: string, i: nat): string
  {
    var response := GenerateResponse(s, llm(i, prompt));
    if response != "" then FormatResponse(response) else ""
  }

  /** The attempts of one run of the loop, by index. */
  function Attempts(s: Settings, llm: (nat, string) -> Reply, prompt: string): nat -> string
  {
    (k: nat) => AttemptScript(s, llm, prompt, k)
  }

  /** The retry loop from attempt i on: the first non-empty attempt's text
      and the number of calls made so far. */
  function RetryFirst(attempt: nat -> string, i: nat): (string, nat)
    decreases MaxRetries - i
  {
    if i >= MaxRetries then ("", i)
    else if attempt(i) != "" then (attempt(i), i + 1)
    else RetryFirst(attempt, i + 1)
  }

  function ScriptFrom(s: Settings, llm: (nat, string) -> Reply, prompt: string): (string, nat)
  {
    RetryFirst(Attempts(s, llm, prompt), 0)
  }

  /** One pass of the loop body: ask the model once and format a non-empty answer. */
  method Attempt(s: Settings, llm: (nat, string) -> Reply, prompt: string, i: nat) returns (script: string)
    ensures script == Attempts(s, llm, prompt)(i)
    ensures script != "" ==> GenerateResponse(s, llm(i, prompt)) != ""
  {
    script := "";
    var response := GenerateResponse(s, llm(i, prompt));
    if response != "" {
      script := FormatResponse(response);
    }
  }

  /** `generate_script(video_subject, language)`, with `template` the
      formatted script prompt: the script and the number of calls made. */
  method GenerateScript(s: Settings, llm: (nat, string) -> Reply, template: string, language: string)
    returns (script: string, calls: nat)
    ensures var (text, n) := ScriptFrom(s, llm, ScriptPrompt(template, language));
      script == Strip(text) && calls == n
    ensures 1 <= calls <= MaxRetries
  {
    var prompt := template;
    if language != "" {
      prompt := prompt + LanguageLine + language;
    }
    var finalScript := "";
    calls := 0;
    for i := 0 to MaxRetries
      invariant finalScript == "" && calls == i
      invariant ScriptFrom(s, llm, prompt) == RetryFirst(Attempts(s, llm, prompt), i)
    {
      finalScript := Attempt(s, llm, prompt, i);
      calls := calls + 1;
      if finalScript != "" {
        assert RetryFirst(Attempts(s, llm, prompt), i) == (finalScript, calls);
        break;
      }
    }
    assert prompt == ScriptPrompt(template, language);
    assert ScriptFrom(s, llm, prompt) == (finalScript, calls);
    script := Strip(finalScript);
    RetryFirstSpec(Attempts(s, llm, prompt), 0);
  }

  /** The loop makes one to five calls, stops at the first attempt whose
      formatted response is non-empty and returns it, and returns nothing
      after five empty attempts. */
  lemma {:induction false} RetryFirstSpec(attempt: nat -> string, i: nat)
    requires i < MaxRetries
    ensures i < RetryFirst(attempt, i).1 <= MaxRetries
    ensures forall k :: i <= k < RetryFirst(attempt, i).1 - 1 ==> attempt(k) == ""
    ensures RetryFirst(attempt, i).0 == attempt(RetryFirst(attempt, i).1 - 1)
    ensures RetryFirst(attempt, i).0 == "" ==> RetryFirst(attempt, i).1 == MaxRetries
    decreases MaxRetries - i
  {
    if attempt(i) == "" && i + 1 < MaxRetries {
      RetryFirstSpec(attempt, i + 1);
    }
  }

  /** A rejected configuration is answered at the first call with the
      formatted error text, which is not empty: it still starts with the
      'E' of "Error: ". */
  lemma ConfigErrorBecomesScript(s: Settings, llm: (nat, string) -> Reply, prompt: string)
    requires ResolveClient(s).Err?
    ensures ScriptFrom(s, llm, prompt) == (FormatResponse("Error: " + ResolveClient(s).error), 1)
    ensures FormatResponse("Error: " + ResolveClient(s).error)[0] == 'E'
  {
    var t := "Error: " + ResolveClient(s).error;
    ResponseErrors(s, llm(0, prompt));
    FormatKeepsHead(t);
    assert Attempts(s, llm, prompt)(0) == FormatResponse(t);
  }

  lemma SubGreedyKeepsHead(s: string, open: char, close: char)
    requires s != [] && s[0] != '\n' && s[0] != open
    ensures SubGreedy(s, open, close) != [] && SubGreedy(s, open, close)[0] == s[0]
  {
    SplitKeepsHead(s, "\n");
    var line := Lines(s)[0];
    if open in line && close in line && FirstIndex(line, open) < LastIndex(line, close) {
      assert FirstIndex(line, open) > 0;
      assert SubLine(line, open, close)[0] == line[0];
    }
    JoinKeepsHead(SubLines(Lines(s), open, close), "\n");
  }

  /** A text that starts with an ordinary character still starts with it once formatted. */
  lemma FormatKeepsHead(t: string)
    requires t != [] && t[0] != '*' && t[0] != '#' && t[0] != '[' && t[0] != '(' && t[0] != '\n'
    ensures FormatResponse(t) != [] && FormatResponse(t)[0] == t[0]
  {
    ReplaceKeepsHead(t, "*", "");
    ReplaceKeepsHead(Replace(t, "*", ""), "#", "");
    var t0 := StripMarkup(t);
    SubGreedyKeepsHead(t0, '[', ']');
    var t1 := SubGreedy(t0, '[', ']');
    SubGreedyKeepsHead(t1, '(', ')');
    JoinSplit(SubGreedy(t1, '(', ')'), "\n\n");
  }

  // ---------------------------------------------------------------------
  // `generate_terms`
  // ---------------------------------------------------------------------

  /** A decoded JSON value, with what Python's truth test and `len` make of it. */
  datatype Json = JNull | JBool(b: bool) | JNum(n: int) | JStr(s: string) | JList(items: seq<Json>) | JObject(size: nat)

  predicate IsStrList(v: Json)
  {
    v.JList? && forall k :: 0 <= k < |v.items| ==> v.items[k].JStr?
  }

  predicate Truthy(v: Json)
  {
    match v
    case JNull => false
    case JBool(b) => b
    case JNum(n) => n != 0
    case JStr(t) => t != ""
    case JList(xs) => xs != []
    case JObject(n) => n > 0
  }

  /** `len(v)`; `None` where Python raises `TypeError`. */
  function Len(v: Json): Option<nat>
  {
    match v
    case JStr(t) => Some(|t|)
    case JList(xs) => Some(|xs|)
    case JObject(n) => Some(n)
    case _ => None
  }

  /** `re.search(r"\[.*]", ...)` on lines: the first line whose first '['
      has a ']' after it, from that '[' to the line's last ']'. */
  function FirstBracketed(lines: seq<string>): Option<string>
    decreases |lines|
  {
    if lines == [] then None
    else
      var line := lines[0];
      if '[' in line && ']' in line && FirstIndex(line, '[') < LastIndex(line, ']') then
        Some(line[FirstIndex(line, '[')..LastIndex(line, ']') + 1])
      else FirstBracketed(lines[1..])
  }

  function BracketMatch(response: string): Option<string>
  {
    FirstBracketed(Lines(response))
  }

  lemma {:induction false} BracketMatchShape(lines: seq<string>)
    requires FirstBracketed(lines).Some?
    ensures var m := FirstBracketed(lines).value;
      |m| >= 2 && m[0] == '[' && m[|m| - 1] == ']'
    decreases |lines|
  {
    var line := lines[0];
    if !('[' in line && ']' in line && FirstIndex(line, '[') < LastIndex(line, ']')) {
      BracketMatchShape(lines[1..]);
    }
  }

  datatype TermsOutcome = ErrorText(text: string) | Terms(value: Json) | TermsTypeError

  /** What an iteration does after its body: return from the function, or
      go on with `search_terms` holding a value. */
  datatype TermsStep = Return(outcome: TermsOutcome) | Next(terms: Json)

  /** `if search_terms and len(search_terms) > 0: break`. */
  function CheckTerms(t: Json): TermsStep
  {
    if !Truthy(t) then Next(t)
    else match Len(t)
      case None => Return(TermsTypeError)
      case Some(n) => if n > 0 then Return(Terms(t)) else Next(t)
  }

  /** One iteration of the loop on `response`, as written: a decoded value
      that is not a list of strings is kept in `search_terms` and the check
      is skipped; a failed decoding falls back to the bracketed part. */
  function TermsAttempt(response: string, parse: string -> Option<Json>, terms: Json): TermsStep
  {
    if IsSubstring("Error: ", response) then Return(ErrorText(response))
    else match parse(response)
      case Some(v) => if !IsStrList(v) then Next(v) else CheckTerms(v)
      case None =>
        var fallback :=
          if response != "" && BracketMatch(response).Some? && parse(BracketMatch(response).value).Some?
          then parse(BracketMatch(response).value).value
          else terms;
        CheckTerms(fallback)
  }

  /** The responses of one run of the loop, by index. */
  function Responses(s: Settings, llm: (nat, string) -> Reply, prompt: string): nat -> string
  {
    (k: nat) => GenerateResponse(s, llm(k, prompt))
  }

  /** The loop from iteration i on, with `search_terms` holding `terms`:
      the outcome and the number of calls made so far. */
  function TermsLoop(response: nat -> string, parse: string -> Option<Json>, i: nat, terms: Json): (TermsOutcome, nat)
    decreases MaxRetries - i
  {
    if i >= MaxRetries then (Terms(terms), i)
    else match TermsAttempt(response(i), parse, terms)
      case Return(o) => (o, i + 1)
      case Next(t) => TermsLoop(response, parse, i + 1, t)
  }

  function TermsFrom(s: Settings, llm: (nat, string) -> Reply, prompt: string, parse: string -> Option<Json>): (TermsOutcome, nat)
  {
    TermsLoop(Responses(s, llm, prompt), parse, 0, JList([]))
  }

  /** The `_generate_response(prompt)` call of iteration i. */
  method Respond(s: Settings, llm: (nat, string) -> Reply, prompt: string, i: nat) returns (response: string)
    ensures response == Responses(s, llm, prompt)(i)
  {
    response := GenerateResponse(s, llm(i, prompt));
  }

  /** `generate_terms(video_subject, video_script, amount)`, with `prompt`
      the formatted terms prompt: what it returns (or raises) and the
      number of calls made. */
  method GenerateTerms(s: Settings, llm: (nat, string) -> Reply, prompt: string, parse: string -> Option<Json>)
    returns (outcome: TermsOutcome, calls: nat)
    ensures (outcome, calls) == TermsFrom(s, llm, prompt, parse)
  {
    ghost var responses := Responses(s, llm, prompt);
    var searchTerms := JList([]);
    var i := 0;
    while i < MaxRetries
      invariant 0 <= i <= MaxRetries
      invariant TermsFrom(s, llm, prompt, parse) == TermsLoop(responses, parse, i, searchTerms)
      decreases MaxRetries - i
    {
      var response := Respond(s, llm, prompt, i);
      ghost var step := TermsAttempt(response, parse, searchTerms);
      TermsLoopStep(responses, parse, i, searchTerms);
      if IsSubstring("Error: ", response) {
        return ErrorText(response), i + 1;
      }
      match parse(response) {
        case Some(v) =>
          searchTerms := v;
          if !IsStrList(v) {
            assert step == Next(v);
            i := i + 1;
            continue;
          }
        case None =>
          if response != "" {
            var m := BracketMatch(response);
            if m.Some? && parse(m.value).Some? {
              searchTerms := parse(m.value).value;
            }
          }
      }
      assert step == CheckTerms(searchTerms);
      if Truthy(searchTerms) {
        if Len(searchTerms).None? {
          return TermsTypeError, i + 1;
        }
        if Len(searchTerms).value > 0 {
          return Terms(searchTerms), i + 1;
        }
      }
      i := i + 1;
    }
    return Terms(searchTerms), i;
  }

  lemma TermsLoopStep(response: nat -> string, parse: string -> Option<Json>, i: nat, terms: Json)
    requires i < MaxRetries
    ensures TermsAttempt(response(i), parse, terms).Return? ==>
      TermsLoop(response, parse, i, terms) == (TermsAttempt(response(i), parse, terms).outcome, i + 1)
    ensures TermsAttempt(response(i), parse, terms).Next? ==>
      TermsLoop(response, parse, i, terms) == TermsLoop(response, parse, i + 1, TermsAttempt(response(i), parse, terms).terms)
  {
  }

  /** At most five calls; an error text is returned as soon as a response
      contains "Error: ": no earlier response contains it, and the last
      response is the error text exactly when it contains it. */
  lemma {:induction false} TermsLoopSpec(response: nat -> string, parse: string -> Option<Json>, i: nat, terms: Json)
    requires i <= MaxRetries
    ensures i <= TermsLoop(response, parse, i, terms).1 <= MaxRetries
    ensures i < MaxRetries ==> i < TermsLoop(response, parse, i, terms).1
    ensures TermsLoop(response, parse, i, terms).0.ErrorText? ==>
      var (o, n) := TermsLoop(response, parse, i, terms);
      IsSubstring("Error: ", o.text) && o.text == response(n - 1)
    ensures var n := TermsLoop(response, parse, i, terms).1;
      forall k :: i <= k < n - 1 ==> !IsSubstring("Error: ", response(k))
    ensures var (o, n) := TermsLoop(response, parse, i, terms);
      i < n && IsSubstring("Error: ", response(n - 1)) ==> o == ErrorText(response(n - 1))
    decreases MaxRetries - i
  {
    if i < MaxRetries && TermsAttempt(response(i), parse, terms).Next? {
      TermsLoopSpec(response, parse, i + 1, TermsAttempt(response(i), parse, terms).terms);
    }
  }

  /** A rejected configuration: the error text comes back, as a string,
      after one call. */
  lemma ConfigErrorTerms(s: Settings, llm: (nat, string) -> Reply, prompt: string, parse: string -> Option<Json>)
    requires ResolveClient(s).Err?
    ensures TermsFrom(s, llm, prompt, parse) == (ErrorText("Error: " + ResolveClient(s).error), 1)
  {
    ResponseErrors(s, llm(0, prompt));
    ErrorPrefix(ResolveClient(s).error);
  }

  /** At any iteration i, whatever `search_terms` holds, a response that
      decodes to a non-empty list of strings ends the loop with that list
      after i + 1 calls. */
  lemma ListBreaksLoop(response: nat -> string, parse: string -> Option<Json>, i: nat, terms: Json, xs: seq<Json>)
    requires i < MaxRetries
    requires !IsSubstring("Error: ", response(i))
    requires parse(response(i)) == Some(JList(xs))
    requires xs != [] && IsStrList(JList(xs))
    ensures TermsLoop(response, parse, i, terms) == (Terms(JList(xs)), i + 1)
  {
    assert TermsAttempt(response(i), parse, terms) == Return(Terms(JList(xs)));
  }

  /** A first response that decodes to a non-empty list of strings ends the loop with that list. */
  lemma FirstListIsReturned(s: Settings, llm: (nat, string) -> Reply, prompt: string, parse: string -> Option<Json>,
                            xs: seq<Json>)
    requires !IsSubstring("Error: ", GenerateResponse(s, llm(0, prompt)))
    requires parse(GenerateResponse(s, llm(0, prompt))) == Some(JList(xs))
    requires xs != [] && IsStrList(JList(xs))
    ensures TermsFrom(s, llm, prompt, parse) == (Terms(JList(xs)), 1)
  {
    ListBreaksLoop(Responses(s, llm, prompt), parse, 0, JList([]), xs);
  }

  /** As written: a first response that decodes to a number is kept, and
      when the second cannot be decoded, the stale number reaches `len`
      and `generate_terms` raises `TypeError`. */
  lemma StaleNumberRaises(s: Settings, prompt: string)
    requires ResolveClient(s).Ok? && s.llmProvider == "openai"
    ensures var llm := (i: nat, p: string) => if i == 0 then Content("5") else Content("");
      var parse := (t: string) => if t == "5" then Some(JNum(5)) else None;
      TermsFrom(s, llm, prompt, parse) == (TermsTypeError, 2)
  {
    var llm := (i: nat, p: string) => if i == 0 then Content("5") else Content("");
    var parse := (t: string) => if t == "5" then Some(JNum(5)) else None;
    OpenAiContentHasNoNewline(s, "5");
    OpenAiContentHasNoNewline(s, "");
    assert GenerateResponse(s, llm(0, prompt)) == "5";
    assert GenerateResponse(s, llm(1, prompt)) == "";
    assert !StartsWith("5", "Error: ");
    assert TermsAttempt("5", parse, JList([])) == Next(JNum(5));
    assert TermsAttempt("", parse, JNum(5)) == Return(TermsTypeError);
  }

  /** One iteration as evidently intended: only a list of strings is ever
      taken as the terms, on the direct path and on the bracketed one. */
  function TermsAttemptChecked(response: string, parse: string -> Option<Json>, terms: Json): TermsStep
  {
    if IsSubstring("Error: ", response) then Return(ErrorText(response))
    else
      var decoded :=
        if parse(response).Some? then parse(response)
        else if response != "" && BracketMatch(response).Some? then parse(BracketMatch(response).value)
        else None;
      if decoded.Some? && IsStrList(decoded.value) then CheckTerms(decoded.value)
      else CheckTerms(terms)
  }

  function TermsLoopChecked(response: nat -> string, parse: string -> Option<Json>, i: nat, terms: Json): (TermsOutcome, nat)
    decreases MaxRetries - i
  {
    if i >= MaxRetries then (Terms(terms), i)
    else match TermsAttemptChecked(response(i), parse, terms)
      case Return(o) => (o, i + 1)
      case Next(t) => TermsLoopChecked(response, parse, i + 1, t)
  }

  function TermsFromChecked(s: Settings, llm: (nat, string) -> Reply, prompt: string, parse: string -> Option<Json>): (TermsOutcome, nat)
  {
    TermsLoopChecked(Responses(s, llm, prompt), parse, 0, JList([]))
  }

  /** The corrected loop never raises and always returns a list of
      strings (or an error text), after at most five calls. */
  lemma {:induction false} CheckedTermsAreStrings(response: nat -> string, parse: string -> Option<Json>, i: nat, terms: Json)
    requires i <= MaxRetries && IsStrList(terms)
    ensures i <= TermsLoopChecked(response, parse, i, terms).1 <= MaxRetries
    ensures TermsLoopChecked(response, parse, i, terms).0 != TermsTypeError
    ensures TermsLoopChecked(response, parse, i, terms).0.Terms? ==> IsStrList(TermsLoopChecked(response, parse, i, terms).0.value)
    decreases MaxRetries - i
  {
    if i < MaxRetries {
      var step := TermsAttemptChecked(response(i), parse, terms);
      if step.Next? {
        CheckedTermsAreStrings(response, parse, i + 1, step.terms);
      }
    }
  }

  /** The schedule that raises as written returns the empty list once corrected. */
  lemma StaleNumberFixed(s: Settings, prompt: string)
    requires ResolveClient(s).Ok? && s.llmProvider == "openai"
    ensures var llm := (i: nat, p: string) => if i == 0 then Content("5") else Content("");
      var parse := (t: string) => if t == "5" then Some(JNum(5)) else None;
      TermsFromChecked(s, llm, prompt, parse) == (Terms(JList([])), MaxRetries)
  {
    var llm := (i: nat, p: string) => if i == 0 then Content("5") else Content("");
    var parse := (t: string) => if t == "5" then Some(JNum(5)) else None;
    OpenAiContentHasNoNewline(s, "5");
    OpenAiContentHasNoNewline(s, "");
    assert GenerateResponse(s, llm(0, prompt)) == "5";
    assert !StartsWith("5", "Error: ");
    assert TermsAttemptChecked("5", parse, JList([])) == Next(JList([]));
    assert TermsAttemptChecked("", parse, JList([])) == Next(JList([]));
  }
}
