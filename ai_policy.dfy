/**
 * The request policy of OptiSched's AI helper (`AIService`): spacing between
 * requests, retrying rate-limited requests with exponential backoff, choosing a
 * provider, refusing requests to do a student's assignment, and canned replies.
 *
 * The network is a stream of outcomes: `responses(k)` is how the k-th request of a
 * call turns out. The clock is explicit: a method is told the time it starts at.
 */
module AiPolicy {
  import opened Common

  const MaxRetries: nat := 3
  /** Minimum spacing between two requests, in milliseconds. */
  const RequestCooldown: int := 2000
  /** Seconds to wait after a 429 that does not say how long. */
  const DefaultRetryAfter: int := 20

  datatype Message = Message(role: string, content: string)

  /** The `retry_after` field of a 429 body: missing (or zero), a number, or text that is no number. */
  datatype RetryAfter = Absent | Seconds(n: int) | Unparsable

  /** How one request to the chat-completions endpoint turns out. */
  datatype ApiResponse =
    | Completed(content: string)
    | TooManyRequests(retryAfter: RetryAfter)
    | Unauthorized
    | HttpFailure(status: int)
    | NetworkFailure

  /** How one call to the Gemini SDK turns out: text, or an error with an optional status. */
  datatype GeminiOutcome = GeminiText(text: string) | GeminiFailure(status: Option<int>, message: string)

  /** What a chat call resolves to (`Answered`) or the error it throws (every other case). */
  datatype Answer =
    | Answered(text: string)
    | InvalidApiKey
    | RateLimitExceeded
    | OpenAIError(status: int)
    | TransportError
    | GeminiRateLimit
    | GeminiError(message: string)
    | UnsupportedProvider

  /** The request a chat call hands to a provider. */
  datatype ProviderRequest = ToOpenAI(messages: seq<Message>) | ToGemini(prompt: string)

  /** The retries of one OpenAI call: its answer, the retry counter it leaves, and each backoff in ms. */
  datatype Run = Run(answer: Answer, retryCount: nat, backoffs: seq<int>)

  /** How long to sleep before a request sent at `now` when the last one went at `last`. */
  function CooldownWait(now: int, last: int): (wait: int)
    ensures wait >= 0
    ensures now + wait >= last + RequestCooldown
    ensures wait > 0 ==> now + wait == last + RequestCooldown
  {
    var since := now - last;
    if since < RequestCooldown then RequestCooldown - since else 0
  }

  /** The seconds a 429 asks for; a missing, zero or unparsable value means the default. */
  function RetryAfterSeconds(ra: RetryAfter): (seconds: int)
    ensures seconds != 0
    ensures ra.Seconds? && ra.n != 0 ==> seconds == ra.n
    ensures !(ra.Seconds? && ra.n != 0) ==> seconds == DefaultRetryAfter
  {
    match ra
    case Seconds(n) => if n != 0 then n else DefaultRetryAfter
    case _ => DefaultRetryAfter
  }

  function Pow2(n: nat): (p: nat)
    ensures p >= 1
  {
    if n == 0 then 1 else 2 * Pow2(n - 1)
  }

  /** The wait before retry number `retry` (from 1): the server's wait, doubled for each earlier retry. */
  function Backoff(retryAfter: int, retry: nat): (wait: int)
    requires retry >= 1
    ensures retryAfter > 0 ==> wait >= retryAfter * 1000
    ensures retry == 1 ==> wait == retryAfter * 1000
  {
    retryAfter * 1000 * Pow2(retry - 1)
  }

  /** The time spent waiting by a call that retries `n` times, each 429 asking for `retryAfter` seconds. */
  function TotalBackoff(retryAfter: int, n: nat): int {
    if n == 0 then 0 else TotalBackoff(retryAfter, n - 1) + Backoff(retryAfter, n)
  }

  /** Each retry waits twice as long as the one before, so `n` retries wait `2^n - 1` times the first wait. */
  lemma {:induction false} BackoffDoubles(retryAfter: int, n: nat)
    ensures n >= 1 ==> Backoff(retryAfter, n + 1) == 2 * Backoff(retryAfter, n)
    ensures TotalBackoff(retryAfter, n) == retryAfter * 1000 * (Pow2(n) - 1)
  {
    if n >= 1 {
      assert Pow2(n) == 2 * Pow2(n - 1);
      calc {
        Backoff(retryAfter, n + 1);
        retryAfter * 1000 * (2 * Pow2(n - 1));
        2 * (retryAfter * 1000 * Pow2(n - 1));
      }
      BackoffDoubles(retryAfter, n - 1);
      calc {
        TotalBackoff(retryAfter, n);
        retryAfter * 1000 * (Pow2(n - 1) - 1) + retryAfter * 1000 * Pow2(n - 1);
        retryAfter * 1000 * (2 * Pow2(n - 1) - 1);
      }
    }
  }

  /** Three retries after a plain 429 (no `retry_after`) wait 20, 40 and 80 seconds: 140 seconds in all. */
  lemma DefaultBudgetWaits(seconds: int)
    requires seconds == RetryAfterSeconds(Absent)
    ensures TotalBackoff(seconds, 3) == 140000
  {
    BackoffDoubles(seconds, 3);
  }

  /** A timer asked for a negative delay fires at once. */
  function Delay(ms: int): nat {
    if ms < 0 then 0 else ms
  }

  /** How a response that is not a 429 ends the call. */
  function Settle(response: ApiResponse): (answer: Answer)
    requires !response.TooManyRequests?
    ensures answer.Answered? <==> response.Completed?
    ensures answer != RateLimitExceeded
  {
    match response
    case Completed(c) => Answered(c)
    case Unauthorized => InvalidApiKey
    case HttpFailure(s) => OpenAIError(s)
    case NetworkFailure => TransportError
  }

  /**
   * One OpenAI call as the service performs it, starting with `retryCount` retries
   * already used and with the response of request `attempt`. A 429 is retried while
   * fewer than `MaxRetries` retries have been used; the counter goes back to 0 only
   * after a completed request.
   */
  function OpenAIRun(retryCount: nat, responses: nat -> ApiResponse, attempt: nat): (run: Run)
    requires retryCount <= MaxRetries
    ensures |run.backoffs| <= MaxRetries - retryCount
    ensures forall k :: 0 <= k < |run.backoffs| ==>
      responses(attempt + k).TooManyRequests? &&
      run.backoffs[k] == Backoff(RetryAfterSeconds(responses(attempt + k).retryAfter), retryCount + k + 1)
    ensures responses(attempt + |run.backoffs|).TooManyRequests? ==>
      run.answer == RateLimitExceeded && |run.backoffs| == MaxRetries - retryCount
    ensures !responses(attempt + |run.backoffs|).TooManyRequests? ==>
      run.answer == Settle(responses(attempt + |run.backoffs|))
    ensures run.retryCount == if run.answer.Answered? then 0 else retryCount + |run.backoffs|
    decreases MaxRetries - retryCount
  {
    match responses(attempt)
    case TooManyRequests(ra) =>
      if retryCount < MaxRetries then
        var rest := OpenAIRun(retryCount + 1, responses, attempt + 1);
        Run(rest.answer, rest.retryCount, [Backoff(RetryAfterSeconds(ra), retryCount + 1)] + rest.backoffs)
      else
        Run(RateLimitExceeded, retryCount, [])
    case Completed(c) => Run(Answered(c), 0, [])
    case _ => Run(Settle(responses(attempt)), retryCount, [])
  }

  /** A call gives up on rate limiting exactly when every request it is allowed to send gets a 429. */
  lemma ExceededIffAllRateLimited(retryCount: nat, responses: nat -> ApiResponse, attempt: nat)
    requires retryCount <= MaxRetries
    ensures OpenAIRun(retryCount, responses, attempt).answer == RateLimitExceeded <==>
      forall j :: attempt <= j <= attempt + MaxRetries - retryCount ==> responses(j).TooManyRequests?
  {
    var run := OpenAIRun(retryCount, responses, attempt);
    var n := |run.backoffs|;
    if run.answer == RateLimitExceeded {
      assert responses(attempt + n).TooManyRequests?;
      forall j | attempt <= j <= attempt + MaxRetries - retryCount
        ensures responses(j).TooManyRequests?
      {
        if j < attempt + n {
          assert responses(attempt + (j - attempt)).TooManyRequests?;
        }
      }
    } else {
      assert !responses(attempt + n).TooManyRequests?;
    }
  }

  /**
   * The retry counter outlives a call that gave up: after one call exhausts its
   * retries, the next call gives up at its first 429 although the request after it
   * would have completed, which a fresh counter would have reached.
   */
  lemma ExhaustedRetriesCarryOver()
    ensures var first := OpenAIRun(0, _ => TooManyRequests(Absent), 0);
      && first.answer == RateLimitExceeded && first.retryCount == MaxRetries
      && OpenAIRun(first.retryCount, k => if k == 0 then TooManyRequests(Absent) else Completed("ok"), 0).answer
         == RateLimitExceeded
      && OpenAIRun(0, k => if k == 0 then TooManyRequests(Absent) else Completed("ok"), 0).answer
         == Answered("ok")
  {
    var first := OpenAIRun(0, _ => TooManyRequests(Absent), 0);
    ExceededIffAllRateLimited(0, _ => TooManyRequests(Absent), 0);
    var second := OpenAIRun(0, k => if k == 0 then TooManyRequests(Absent) else Completed("ok"), 0);
    assert |second.backoffs| >= 1;
  }

  /**
   * With the counter at 0 when a call starts, every call may send `MaxRetries + 1`
   * requests, and gives up only when all of them are rate limited.
   */
  lemma FullRetryBudget(responses: nat -> ApiResponse)
    ensures OpenAIRun(0, responses, 0).answer == RateLimitExceeded <==>
      forall j :: 0 <= j <= MaxRetries ==> responses(j).TooManyRequests?
    ensures |OpenAIRun(0, responses, 0).backoffs| <= MaxRetries
  {
    ExceededIffAllRateLimited(0, responses, 0);
  }

  function Contents(messages: seq<Message>): (contents: seq<string>)
    ensures |contents| == |messages|
    ensures forall i :: 0 <= i < |messages| ==> contents[i] == messages[i].content
  {
    seq(|messages|, i requires 0 <= i < |messages| => messages[i].content)
  }

  /** Provider routing: OpenAI gets the messages as they are, Gemini one prompt of their contents, one per line. */
  function Route(provider: string, messages: seq<Message>): (request: Option<ProviderRequest>)
    ensures provider == "openai" ==> request == Some(ToOpenAI(messages))
    ensures provider == "gemini" ==> request == Some(ToGemini(Join(Contents(messages), "\n")))
    ensures request.None? <==> provider != "openai" && provider != "gemini"
  {
    if provider == "openai" then Some(ToOpenAI(messages))
    else if provider == "gemini" then Some(ToGemini(Join(Contents(messages), "\n")))
    else None
  }

  /** The Gemini prompt splits back, line by line, into the message contents when none holds a line break. */
  lemma GeminiPromptKeepsContents(messages: seq<Message>)
    requires |messages| >= 1
    requires forall i :: 0 <= i < |messages| ==> '\n' !in messages[i].content
    ensures Route("gemini", messages).value.prompt == Join(Contents(messages), "\n")
    ensures Split(Route("gemini", messages).value.prompt, '\n') == Contents(messages)
  {
    SplitJoin(Contents(messages), '\n');
  }

  /** How a Gemini SDK outcome is reported: 429 first, then 401 or a message about the API key. */
  function GeminiAnswer(outcome: GeminiOutcome): (answer: Answer)
    ensures answer.Answered? <==> outcome.GeminiText?
    ensures answer == GeminiRateLimit <==> outcome.GeminiFailure? && outcome.status == Some(429)
    ensures answer == InvalidApiKey <==>
      outcome.GeminiFailure? && outcome.status != Some(429)
      && (outcome.status == Some(401) || Contains(outcome.message, "API_KEY"))
  {
    match outcome
    case GeminiText(t) => Answered(t)
    case GeminiFailure(status, message) =>
      if status == Some(429) then GeminiRateLimit
      else if status == Some(401) || Contains(message, "API_KEY") then InvalidApiKey
      else GeminiError("Gemini API error: " + message)
  }

  function LowerChar(c: char): char {
    if 'A' <= c <= 'Z' then (c as int + 32) as char else c
  }

  function UpperChar(c: char): char {
    if 'a' <= c <= 'z' then (c as int - 32) as char else c
  }

  /** `toLowerCase` on the ASCII letters. */
  function ToLower(s: string): (r: string)
    ensures |r| == |s|
    ensures forall i :: 0 <= i < |s| ==> r[i] == LowerChar(s[i])
  {
    seq(|s|, i requires 0 <= i < |s| => LowerChar(s[i]))
  }

  function ToUpper(s: string): (r: string)
    ensures |r| == |s|
    ensures forall i :: 0 <= i < |s| ==> r[i] == UpperChar(s[i])
  {
    seq(|s|, i requires 0 <= i < |s| => UpperChar(s[i]))
  }

  /** The phrases that mark a request to do a student's work. */
  const RestrictedKeywords: seq<string> := [
    "do my assignment", "write my essay", "complete my homework",
    "solve my problem", "give me answer", "write code for me",
    "do project", "write report", "complete assignment", "solve homework",
    "give me solution", "write assignment", "do homework for me",
    "write paper", "complete project", "solve assignment"
  ]

  /** Some keyword from index `from` on occurs in `text`. */
  predicate SomeKeywordIn(text: string, from: nat)
    requires from <= |RestrictedKeywords|
    ensures SomeKeywordIn(text, from) <==>
      exists k :: from <= k < |RestrictedKeywords| && Contains(text, RestrictedKeywords[k])
    decreases |RestrictedKeywords| - from
  {
    from < |RestrictedKeywords| && (Contains(text, RestrictedKeywords[from]) || SomeKeywordIn(text, from + 1))
  }

  /** A question asks for assignment completion when, lower-cased, it contains a restricted phrase. */
  predicate IsAssignmentCompletionQuestion(question: string)
    ensures IsAssignmentCompletionQuestion(question) <==>
      exists k :: 0 <= k < |RestrictedKeywords| && Contains(ToLower(question), RestrictedKeywords[k])
  {
    SomeKeywordIn(ToLower(question), 0)
  }

  lemma ToLowerIgnoresCase(s: string)
    ensures ToLower(ToLower(s)) == ToLower(s)
    ensures ToLower(ToUpper(s)) == ToLower(s)
  {
  }

  /** The refusal does not depend on letter case: upper- or lower-casing a question changes nothing. */
  lemma RestrictionIgnoresCase(question: string)
    ensures IsAssignmentCompletionQuestion(ToUpper(question)) == IsAssignmentCompletionQuestion(question)
    ensures IsAssignmentCompletionQuestion(ToLower(question)) == IsAssignmentCompletionQuestion(question)
  {
    ToLowerIgnoresCase(question);
  }

  lemma ToLowerConcat(a: string, b: string)
    ensures ToLower(a + b) == ToLower(a) + ToLower(b)
  {
  }

  /** Wrapping a restricted question in more text keeps it restricted. */
  lemma RestrictionSurvivesContext(before: string, question: string, after: string)
    requires IsAssignmentCompletionQuestion(question)
    ensures IsAssignmentCompletionQuestion(before + question + after)
  {
    var lower := ToLower(question);
    var k :| 0 <= k < |RestrictedKeywords| && Contains(lower, RestrictedKeywords[k]);
    ContainsWithin(ToLower(before), lower, ToLower(after), RestrictedKeywords[k]);
    ToLowerConcat(before, question);
    ToLowerConcat(before + question, after);
    assert Contains(ToLower(before + question + after), RestrictedKeywords[k]);
  }

  /** Questions shorter than every restricted phrase are never refused. */
  lemma ShortQuestionsPass(question: string)
    requires |question| < 10
    ensures !IsAssignmentCompletionQuestion(question)
  {
    var lower := ToLower(question);
    forall k | 0 <= k < |RestrictedKeywords|
      ensures !Contains(lower, RestrictedKeywords[k])
    {
      assert |RestrictedKeywords[k]| >= 10;
    }
  }

  lemma ShoutedRequestRefused()
    ensures IsAssignmentCompletionQuestion("Please DO MY ASSIGNMENT")
  {
    var lower := ToLower("Please DO MY ASSIGNMENT");
    assert lower[7..23] == "do my assignment";
    ContainsAt(lower, "do my assignment", 7);
  }

  const RefusalText: string :=
    "I'm sorry, but I can't help complete assignments or provide direct answers to homework questions. "
    + "This is to ensure academic integrity and help you learn effectively.\n\nHowever, I can help you with:\n"
    + "• Study techniques and learning strategies\n• Understanding concepts and theories\n"
    + "• Practice problems and examples\n• Time management for assignments\n"
    + "• Research guidance and resource suggestions\n• Breaking down assignments into manageable steps\n\n"
    + "Would you like help with any of these alternative approaches?"

  const TutorInstruction: string :=
    "You are an knowledgeable academic tutor. Help students learn without giving direct assignment answers."

  const AnswerGuidance: string :=
    "\n\nPlease provide:\n1. A clear, accurate answer\n2. Explanation of key concepts\n3. Examples if helpful\n"
    + "4. Related study tips\n\nKeep the response educational and appropriate for students. "
    + "Do not provide direct answers to assignment questions - instead guide the learning process."

  /** What answering an academic question does before any provider is involved. */
  datatype Academic = Refuse(text: string) | Ask(messages: seq<Message>)

  function AcademicRequest(question: string, context: string): (request: Academic)
    ensures IsAssignmentCompletionQuestion(question) <==> request == Refuse(RefusalText)
    ensures request.Ask? ==>
      && |request.messages| == 2
      && request.messages[0] == Message("system", TutorInstruction)
      && request.messages[1].role == "user"
      && Contains(request.messages[1].content, question)
      && (context != "" ==> Contains(request.messages[1].content, context))
  {
    if IsAssignmentCompletionQuestion(question) then Refuse(RefusalText)
    else
      PromptMentions(question, context);
      Ask([Message("system", TutorInstruction), Message("user", AcademicPrompt(question, context))])
  }

  const QuestionLabel: string := "Answer this academic question: "
  const ContextLabel: string := "Additional context: "

  /**
   * The user prompt: the labelled question on the first line, the labelled context
   * (or nothing) on the second, then the guidance; nothing else.
   */
  function AcademicPrompt(question: string, context: string): (prompt: string)
    ensures |prompt| == |QuestionLabel| + |question| + 1 + (if context != "" then |ContextLabel| + |context| else 0) + |AnswerGuidance|
    ensures prompt[..|QuestionLabel| + |question| + 1] == QuestionLabel + question + "\n"
    ensures prompt[|prompt| - |AnswerGuidance|..] == AnswerGuidance
    ensures context == "" ==> prompt == QuestionLabel + question + "\n" + AnswerGuidance
  {
    var extra := if context != "" then ContextLabel + context else "";
    QuestionLabel + question + "\n" + extra + AnswerGuidance
  }

  /** The prompt quotes the question, and the context when there is one. */
  lemma PromptMentions(question: string, context: string)
    ensures Contains(AcademicPrompt(question, context), question)
    ensures context != "" ==> Contains(AcademicPrompt(question, context), context)
  {
    var prompt := AcademicPrompt(question, context);
    var extra := if context != "" then ContextLabel + context else "";
    assert prompt == QuestionLabel + question + ("\n" + extra + AnswerGuidance);
    ContainsAt(question, question, 0);
    ContainsWithin(QuestionLabel, question, "\n" + extra + AnswerGuidance, question);
    if context != "" {
      var front := QuestionLabel + question + "\n" + ContextLabel;
      assert prompt == front + context + AnswerGuidance;
      ContainsAt(context, context, 0);
      ContainsWithin(front, context, AnswerGuidance, context);
    }
  }

  const DefaultFallback: string :=
    "I'm here to help with your academic journey. Try asking about study tips, schedule optimization, or specific subjects!"

  const ScheduleTip: string :=
    "Based on your schedule, I recommend studying during your free periods and taking regular breaks. Try the Pomodoro technique: 25 minutes of focused study followed by a 5-minute break."
  const StudyTip: string :=
    "For effective studying, create a dedicated study space, eliminate distractions, and use active learning techniques like summarizing information in your own words."
  const QuestionTip: string :=
    "That's a great question! I recommend checking your textbook first, then discussing with classmates. If you still need help, don't hesitate to ask your teacher."
  const AssignmentTip: string :=
    "Break down your assignment into smaller tasks and create a timeline. Start with research, then outline, draft, and finally revise. Don't forget to proofread!"

  const Fallbacks: map<string, string> := map[
    "schedule" := ScheduleTip,
    "study" := StudyTip,
    "question" := QuestionTip,
    "assignment" := AssignmentTip
  ]

  /** The canned reply used when no provider is reachable. */
  function FallbackResponse(kind: string): (reply: string)
    ensures kind in Fallbacks ==> reply == Fallbacks[kind]
    ensures kind !in Fallbacks ==> reply == DefaultFallback
    ensures reply == DefaultFallback <==> kind !in Fallbacks
  {
    if kind in Fallbacks && Fallbacks[kind] != "" then Fallbacks[kind] else DefaultFallback
  }

  /** Each of the five replies belongs to one kind only, so the reply tells which kind was asked for. */
  lemma FallbacksAreDistinct(a: string, b: string)
    requires a in Fallbacks && b in Fallbacks && a != b
    ensures FallbackResponse(a) != FallbackResponse(b)
  {
    assert |ScheduleTip| == 182 && |StudyTip| == 162 && |QuestionTip| == 159 && |AssignmentTip| == 157;
  }

  class AIService {
    var retryCount: nat
    /** When the last request was sent, in ms on the caller's clock. */
    var lastRequestTime: int
    const currentProvider: string

    /** Between calls no retries are outstanding. */
    ghost predicate Valid()
      reads this
    {
      retryCount == 0
    }

    constructor (provider: string)
      ensures Valid() && lastRequestTime == 0 && currentProvider == provider
    {
      retryCount := 0;
      lastRequestTime := 0;
      currentProvider := provider;
    }

    /**
     * Sleeps until the cooldown since the last request has passed, then records
     * the clock as read after the sleep (`lateness` is how late the timer fired).
     */
    method WaitForCooldown(now: int, lateness: nat) returns (wait: int)
      modifies this`lastRequestTime
      ensures wait == CooldownWait(now, old(lastRequestTime))
      ensures lastRequestTime == now + wait + lateness
      ensures lastRequestTime >= old(lastRequestTime) + RequestCooldown
    {
      var since := now - lastRequestTime;
      wait := 0;
      if since < RequestCooldown {
        wait := RequestCooldown - since;
      }
      lastRequestTime := now + wait + lateness;
    }

    /**
     * One OpenAI call: wait out the cooldown, send, and on a 429 sleep for the
     * backoff and send again. The answer is the one `OpenAIRun` describes; unlike
     * the service as written, the retry counter is back at 0 whenever the call ends.
     */
    method ChatWithOpenAI(responses: nat -> ApiResponse, attempt: nat, now: int) returns (answer: Answer)
      requires retryCount <= MaxRetries
      modifies this
      ensures answer == OpenAIRun(old(retryCount), responses, attempt).answer
      ensures retryCount == 0
      ensures lastRequestTime >= old(lastRequestTime) + RequestCooldown
      decreases MaxRetries - retryCount
    {
      var _ := WaitForCooldown(now, 0);
      var response := responses(attempt);
      if response.TooManyRequests? {
        var retryAfter := RetryAfterSeconds(response.retryAfter);
        if retryCount < MaxRetries {
          retryCount := retryCount + 1;
          var backoff := Backoff(retryAfter, retryCount);
          answer := ChatWithOpenAI(responses, attempt + 1, lastRequestTime + Delay(backoff));
        } else {
          retryCount := 0;
          answer := RateLimitExceeded;
        }
      } else {
        retryCount := 0;
        answer := Settle(response);
      }
    }

    /** Sends `messages` to the configured provider. */
    method Chat(messages: seq<Message>, responses: nat -> ApiResponse, gemini: GeminiOutcome, now: int)
      returns (answer: Answer, request: Option<ProviderRequest>)
      requires Valid()
      modifies this
      ensures Valid()
      ensures request == Route(currentProvider, messages)
      ensures request.None? ==> answer == UnsupportedProvider && unchanged(this)
      ensures request.Some? && request.value.ToGemini? ==> answer == GeminiAnswer(gemini) && unchanged(this)
      ensures request.Some? && request.value.ToOpenAI? ==> answer == OpenAIRun(0, responses, 0).answer
    {
      request := Route(currentProvider, messages);
      if request.None? {
        answer := UnsupportedProvider;
      } else if request.value.ToGemini? {
        answer := GeminiAnswer(gemini);
      } else {
        answer := ChatWithOpenAI(responses, 0, now);
      }
    }

    /** Answers an academic question; a request to do an assignment gets the refusal and no provider is called. */
    method AnswerAcademicQuestion(question: string, context: string, responses: nat -> ApiResponse,
                                  gemini: GeminiOutcome, now: int) returns (answer: Answer, request: Option<ProviderRequest>)
      requires Valid()
      modifies this
      ensures Valid()
      ensures IsAssignmentCompletionQuestion(question) ==>
        answer == Answered(RefusalText) && request == None && unchanged(this)
      ensures !IsAssignmentCompletionQuestion(question) ==>
        request == Route(currentProvider, AcademicRequest(question, context).messages)
      ensures !IsAssignmentCompletionQuestion(question) && currentProvider == "gemini" ==>
        answer == GeminiAnswer(gemini)
      ensures !IsAssignmentCompletionQuestion(question) && currentProvider == "openai" ==>
        answer == OpenAIRun(0, responses, 0).answer
      ensures !IsAssignmentCompletionQuestion(question) && currentProvider != "openai" && currentProvider != "gemini" ==>
        answer == UnsupportedProvider
    {
      var academic := AcademicRequest(question, context);
      if academic.Refuse? {
        return Answered(academic.text), None;
      }
      answer, request := Chat(academic.messages, responses, gemini, now);
    }
  }
}
