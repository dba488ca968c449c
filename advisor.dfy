/** Picking the image, assembling the prompt and turning the generative
    model's answer or failure into the analysis text (main.py:54-59,
    76-106). The model itself is an external service: its answer is an
    input here. */
module Advisor {
  import opened Options
  import opened Ledger
  import opened WeightSummary
  import opened Chronology

  /** The raw content of an uploaded file or a camera capture. */
  type Bytes = seq<bv8>

  datatype Rgb = Rgb(red: nat, green: nat, blue: nat)

  /** An image handed to the model: one opened from a real photo, or a
      synthetic solid-colour image. Decoding is not modelled. */
  datatype Image = Opened(content: Bytes) | Blank(width: nat, height: nat, fill: Rgb)

  /** The neutral grey stand-in shown when there is no photo. */
  const PLACEHOLDER := Blank(400, 200, Rgb(200, 200, 200))

  /** A real photo exists when the uploader or the camera holds one. */
  predicate HasPhoto(uploaded: Option<Bytes>, photo: Option<Bytes>)
  {
    uploaded.Some? || photo.Some?
  }

  /** The uploaded file wins over the camera photo, and either wins over
      the placeholder. */
  function SelectImage(uploaded: Option<Bytes>, photo: Option<Bytes>): (image: Image)
    ensures uploaded.Some? ==> image == Opened(uploaded.value)
    ensures uploaded.None? && photo.Some? ==> image == Opened(photo.value)
    ensures image == PLACEHOLDER <==> !HasPhoto(uploaded, photo)
  {
    if uploaded.Some? then Opened(uploaded.value)
    else if photo.Some? then Opened(photo.value)
    else PLACEHOLDER
  }

  /** The fixed text in front of the weight summary. */
  const PROMPT_HEAD :=
    "\n"
    + "You are a fitness and nutrition expert. Given the image of a person's body shape and their weight history, please:\n"
    + "1. Analyze their body composition briefly.\n"
    + "2. Propose a beginner-friendly fitness schedule (e.g., exercises, sets, reps, weekly schedule).\n"
    + "3. Suggest a balanced dietary approach.\n"
    + "4. Consider the user's weight change over time in your analysis.\n"
    + "5. Present all information in Markdown format with:\n"
    + "   - Headings (e.g., ## Overview, ## Recommended Exercises, ## Dietary Guidelines)\n"
    + "   - Bullet points for lists\n"
    + "   - Short but clear explanations\n"
    + "6. Keep in mind that this is a starting point for someone looking to improve general health and fitness.\n"
    + "\n"
    + "**Weight Information:**\n"

  /** The fixed text after the weight summary. */
  const PROMPT_TAIL :=
    "\n\nIf the image is not available or not analyzable, provide generic advice as above.\n"

  /** The prompt: the fixed head, the weight summary, the fixed tail. */
  function Prompt(weightInfo: string): (prompt: string)
    ensures |prompt| == |PROMPT_HEAD| + |weightInfo| + |PROMPT_TAIL|
    ensures prompt[..|PROMPT_HEAD|] == PROMPT_HEAD
    ensures prompt[|PROMPT_HEAD|..|PROMPT_HEAD| + |weightInfo|] == weightInfo
    ensures prompt[|PROMPT_HEAD| + |weightInfo|..] == PROMPT_TAIL
  {
    PROMPT_HEAD + weightInfo + PROMPT_TAIL
  }

  /** Different summaries give different prompts: the summary is the only
      part of the prompt that varies. */
  lemma {:induction false} PromptInjective(a: string, b: string)
    requires Prompt(a) == Prompt(b)
    ensures a == b
  {
    assert a == Prompt(a)[|PROMPT_HEAD|..|PROMPT_HEAD| + |a|];
  }

  /** The argument list of `generate_content`: the prompt, then the image
      when there is one. */
  datatype Request = Request(prompt: string, image: Option<Image>)

  /** The image goes with the prompt exactly when a real photo exists, and
      it is then the one the precedence picks, never the placeholder. */
  function BuildRequest(prompt: string, uploaded: Option<Bytes>, photo: Option<Bytes>): (request: Request)
    ensures request.prompt == prompt
    ensures request.image.Some? <==> HasPhoto(uploaded, photo)
    ensures request.image.Some? ==>
      request.image.value == SelectImage(uploaded, photo) && request.image.value != PLACEHOLDER
  {
    Request(prompt, if HasPhoto(uploaded, photo) then Some(SelectImage(uploaded, photo)) else None)
  }

  /** How the call went: the text of the model's answer (the string itself,
      or the `text` of the response object), or the message of an exception
      raised by the call or by reading the answer's text. */
  datatype Reply = Answer(text: string) | Raised(message: string)

  const ERROR_PREFIX := "An error occurred: "

  /** The analysis text: the answer verbatim, or the failure turned into
      text. */
  function Analysis(reply: Reply): (markdown: string)
    ensures reply.Answer? ==> markdown == reply.text
    ensures reply.Raised? ==> markdown == ERROR_PREFIX + reply.message
  {
    match reply
    case Answer(text) => text
    case Raised(message) => ERROR_PREFIX + message
  }

  /** The failure text can be told apart from an answer only by reading
      it: an answer may read exactly like a failure. */
  lemma {:induction false} FailureLooksLikeAnswer(message: string)
    ensures Analysis(Raised(message)) == Analysis(Answer(ERROR_PREFIX + message))
  {}

  /** One pass of the script from the history and widgets to the analysis
      text; `generate` stands for the generative model and `show` for the
      rendering of a weight. */
  function AnalysisFor(history: seq<Record>, uploaded: Option<Bytes>, photo: Option<Bytes>,
                       show: Weight -> string, generate: Request -> Reply): string
  {
    Analysis(generate(BuildRequest(Prompt(WeightInfo(history, show)), uploaded, photo)))
  }

  /** A service that fails with message `m` on every request gives the
      failure text, whatever the history and the photos. */
  lemma {:induction false} ServiceFailingEverywhere(history: seq<Record>, uploaded: Option<Bytes>, photo: Option<Bytes>,
                                                    show: Weight -> string, generate: Request -> Reply, m: string)
    requires forall q :: generate(q) == Raised(m)
    ensures AnalysisFor(history, uploaded, photo, show, generate) == ERROR_PREFIX + m
  {}

  /** An empty history and no photo: the model is asked once, with the
      no-data prompt alone, and its reply decides the text. */
  lemma {:induction false} EmptySessionAnalysis(show: Weight -> string, generate: Request -> Reply)
    ensures AnalysisFor([], None, None, show, generate) == Analysis(generate(Request(Prompt(NO_WEIGHT_DATA), None)))
  {}

  /** The analysis depends on insertion order only among records with
      equal timestamps: the model is asked the same question either way. */
  lemma {:induction false} AnalysisIgnoresInterleaving(s: seq<Record>, t: seq<Record>, uploaded: Option<Bytes>,
                                                       photo: Option<Bytes>, show: Weight -> string,
                                                       generate: Request -> Reply)
    requires forall d :: WithDate(s, d) == WithDate(t, d)
    ensures AnalysisFor(s, uploaded, photo, show, generate) == AnalysisFor(t, uploaded, photo, show, generate)
  {
    SummaryIgnoresInterleaving(s, t);
  }

  /** An empty history and no photo: the prompt carries the no-data text
      and the model is asked with the prompt alone. */
  lemma {:induction false} EmptySessionWithoutPhoto(show: Weight -> string)
    ensures BuildRequest(Prompt(WeightInfo([], show)), None, None) == Request(Prompt(NO_WEIGHT_DATA), None)
    ensures Prompt(NO_WEIGHT_DATA)[|PROMPT_HEAD|..|PROMPT_HEAD| + |NO_WEIGHT_DATA|] == NO_WEIGHT_DATA
  {}

  /** A call that fails with "timeout" yields exactly the failure text. */
  lemma TimeoutFailure()
    ensures Analysis(Raised("timeout")) == "An error occurred: timeout"
  {}
}
