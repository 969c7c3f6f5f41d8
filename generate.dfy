/** The `/generate` endpoint of the backend: validation of the form
    fields, assembly of the material, the chat request built for the
    chosen mode, and the response dictionary made from the model's reply.
    PDF text extraction, the chat-completion call and `json.loads` are
    parameters. */
module Generate {
  import opened Wrappers
  import opened Text

  const PdfOnly := "Only PDF files are supported."
  const NoInput := "Please provide either a PDF, text input, or user request."
  const InvalidMode := "Invalid mode. Choose 'notes' or 'quiz'."
  const ParseWarning := "Could not parse JSON properly. Here's raw text."
  /** At most this many characters of material reach the prompt. */
  const MaxContent := 12000
  const ModelName := "gpt-4o-mini"
  const JsonObject := "json_object"
  const NotesSystem := "You are an expert AI tutor who creates detailed, structured, and easy-to-understand study notes."
  const QuizSystem := "You are an expert AI quiz generator. Respond ONLY with valid JSON in the given format."
  const DefaultTopic := "General"
  const NotesDefaultRequest := "Please create comprehensive notes with explanations and examples."
  const QuizDefaultRequest := "Create a well-balanced quiz from the provided material."
  const NoMaterial := "No material provided \U{2014} use general knowledge of the topic."
  /** The JSON layout the quiz prompt asks for. */
  const QuizFormat := "{\n  \"mcq\": [\n    {\n      \"question\": \"What is ...?\",\n      \"options\": [\"A\", \"B\", \"C\", \"D\"],\n      \"correct_answer\": \"B\"\n    }\n  ],\n  \"short_answer\": [\n    {\n      \"question\": \"Explain ...\",\n      \"correct_answer\": \"...\"\n    }\n  ]\n}"

  /** An uploaded file: its name and, per page in order, the text the PDF
      reader extracts (`None` where it extracts none). */
  datatype Upload = Upload(filename: string, pages: seq<Option<string>>)

  /** The form fields of a request; every field but `mode` may be absent. */
  datatype Form = Form(mode: string, userRequest: Option<string>, topic: Option<string>,
                       textInput: Option<string>, file: Option<Upload>)

  datatype Mode = Notes | QuizMode

  datatype Role = System | User
  datatype Message = Message(role: Role, content: string)

  /** The keyword arguments of the chat-completion call (`base_params`). */
  datatype ChatRequest = ChatRequest(model: string, messages: seq<Message>, responseFormat: Option<string>)

  /** The returned dictionary, one constructor per `return`; `J` is
      whatever JSON value the parser produces. */
  datatype Response<J> =
    | Error(message: string)
    | QuizSuccess(quiz: J)
    | QuizWarning(rawOutput: string)
    | NotesSuccess(notes: string)

  /** A value of the returned dictionary. */
  datatype Value<J> = Str(s: string) | Payload(json: J)

  /** The dictionary each response stands for, key by key. */
  function ToDict<J>(r: Response<J>): map<string, Value<J>> {
    match r
    case Error(m) => map["error" := Str(m)]
    case QuizSuccess(q) => map["status" := Str("success"), "mode" := Str("quiz"), "quiz" := Payload(q)]
    case QuizWarning(raw) =>
      map["status" := Str("warning"), "mode" := Str("quiz"), "message" := Str(ParseWarning), "raw_output" := Str(raw)]
    case NotesSuccess(n) => map["status" := Str("success"), "mode" := Str("notes"), "notes" := Str(n)]
  }

  /** Python truthiness of an optional string: present and non-empty. */
  predicate Truthy(s: Option<string>) {
    s.Some? && s.value != ""
  }

  /** What one page adds: its text and a newline, or nothing when the
      text is empty or absent. */
  function PageLine(text: Option<string>): string {
    if Truthy(text) then text.value + "\n" else ""
  }

  /** The page texts in order, each followed by a newline, blank pages
      skipped. */
  function PageText(pages: seq<Option<string>>): (r: string)
    ensures r != "" ==> r[|r| - 1] == '\n'
  {
    if pages == [] then "" else PageText(pages[..|pages| - 1]) + PageLine(pages[|pages| - 1])
  }

  /** The filename check: the lower-cased name must end in ".pdf". A
      non-ASCII character that Python's `str.lower` maps to a plain letter
      of ".pdf" would bring a combining mark along, so ASCII lower-casing
      decides this as Python does. */
  predicate BadFile(form: Form) {
    form.file.Some? && !EndsWith(Lower(form.file.value.filename), ".pdf")
  }

  /** The material before trimming: the page text of the file, if any,
      then a newline and the text input when one was given. */
  function Gathered(form: Form): string {
    (if form.file.Some? then PageText(form.file.value.pages) else "")
    + (if Truthy(form.textInput) then "\n" + form.textInput.value else "")
  }

  /** The mode, matched after lower-casing. Python's `str.lower` maps a
      non-ASCII character to a plain letter of "notes" or "quiz" only when
      it also adds a combining mark (U+0130 becomes "i" and U+0307), so the
      lower-cased field still differs from "notes" and "quiz" and ASCII
      lower-casing decides the match as Python does. */
  function ParseMode(mode: string): Option<Mode> {
    var m := Lower(mode);
    if m == "notes" then Some(Notes) else if m == "quiz" then Some(QuizMode) else None
  }

  /** `x or default` for an optional string. */
  function OrDefault(s: Option<string>, default: string): string {
    if Truthy(s) then s.value else default
  }

  /** The user prompt up to its material: the topic (default "General")
      and the request (with the mode's default). */
  function PromptHead(m: Mode, form: Form): string {
    "\nTopic: " + OrDefault(form.topic, DefaultTopic) + "\n\nUser Request:\n"
    + OrDefault(form.userRequest, if m == Notes then NotesDefaultRequest else QuizDefaultRequest)
    + "\n\nMaterial:\n"
  }

  /** `content if content else "No material provided ..."`. */
  function Material(content: string): string {
    if content != "" then content else NoMaterial
  }

  /** The user prompt after its material: in quiz mode, the JSON layout
      to answer in. */
  function PromptTail(m: Mode): string {
    if m == Notes then "\n"
    else "\n\nNow, generate a quiz with exactly this JSON format:\n\n" + QuizFormat + "\n"
  }

  /** The user prompt for a mode. */
  function Prompt(m: Mode, form: Form, content: string): string {
    PromptHead(m, form) + Material(content) + PromptTail(m)
  }

  /** The chat request for a mode: a system and a user message, and a
      JSON-object response format in quiz mode only. */
  function BuildRequest(m: Mode, form: Form, content: string): ChatRequest {
    ChatRequest(ModelName,
                [Message(System, if m == Notes then NotesSystem else QuizSystem),
                 Message(User, Prompt(m, form, content))],
                if m == QuizMode then Some(JsonObject) else None)
  }

  /** The outcome of validation and assembly. */
  datatype Prepared = Prepared(mode: Mode, content: string, request: ChatRequest)

  /** Validation and assembly, checks in source order: the filename, then
      the presence of some input, then the mode. */
  function Prepare(form: Form): (r: Result<Prepared, string>)
    ensures r.Err? ==> r.error == PdfOnly || r.error == NoInput || r.error == InvalidMode
    ensures BadFile(form) ==> r == Err(PdfOnly)
    ensures r.Ok? ==>
              (|r.value.content| <= MaxContent && |r.value.content| <= |Trim(Python, Gathered(form))|
               && r.value.content == Trim(Python, Gathered(form))[..|r.value.content|])
    ensures r.Ok? ==> r.value.request.model == ModelName && |r.value.request.messages| == 2
    ensures r.Ok? ==> (r.value.mode == QuizMode <==> Lower(form.mode) == "quiz")
  {
    if BadFile(form) then Err(PdfOnly)
    else if Trim(Python, Gathered(form)) == [] && !Truthy(form.userRequest) then Err(NoInput)
    else
      var content := Take(Trim(Python, Gathered(form)), MaxContent);
      match ParseMode(form.mode)
      case None => Err(InvalidMode)
      case Some(m) => Ok(Prepared(m, content, BuildRequest(m, form, content)))
  }

  const Opener := "```json\n"
  const Closer := "\n```"

  /** `pat` occurs in `s` at index `k`. */
  predicate At(s: string, pat: string, k: nat) {
    k + |pat| <= |s| && s[k..k + |pat|] == pat
  }

  /** The first index at or after `from` where `pat` occurs. */
  function IndexOf(s: string, pat: string, from: nat): (r: Option<nat>)
    ensures r.Some? ==> from <= r.value && At(s, pat, r.value)
    ensures r.Some? ==> forall j :: from <= j < r.value ==> !At(s, pat, j)
    ensures r.None? ==> forall j :: from <= j ==> !At(s, pat, j)
    decreases |s| - from
  {
    if |s| < from + |pat| then None
    else if s[from..from + |pat|] == pat then Some(from)
    else IndexOf(s, pat, from + 1)
  }

  /** The first group of `re.search(r"```json\n(.*?)\n```", s, re.DOTALL)`.
      The search takes the leftmost opener; the lazy group then ends at
      the first closer after it. When the leftmost opener has no closer
      after it no later opener has one either, so there is no match. */
  function JsonBlock(s: string): (r: Option<string>)
    ensures r.Some? ==> exists p: nat :: At(s, Opener, p) && At(s, Closer, p + |Opener| + |r.value|)
                                         && s[p + |Opener|..p + |Opener| + |r.value|] == r.value
  {
    match IndexOf(s, Opener, 0)
    case None => None
    case Some(p) =>
      match IndexOf(s, Closer, p + |Opener|)
      case None => None
      case Some(q) =>
        assert At(s, Closer, p + |Opener| + |s[p + |Opener|..q]|);
        Some(s[p + |Opener|..q])
  }

  /** What is made of the model's reply: a raised exception becomes an
      error; otherwise the stripped reply is the notes, or in quiz mode is
      parsed directly, then from its first fenced JSON block, and failing
      both is returned raw with a warning. */
  function Respond<J>(m: Mode, reply: Result<string, string>, parse: string -> Option<J>): (r: Response<J>)
    ensures reply.Err? <==> r.Error?
    ensures r.Error? ==> r.message == reply.error
    ensures r.NotesSuccess? <==> reply.Ok? && m == Notes
    ensures r.NotesSuccess? ==> r.notes == Trim(Python, reply.value)
    ensures r.QuizWarning? ==>
              (reply.Ok? && m == QuizMode && r.rawOutput == Trim(Python, reply.value)
               && parse(Trim(Python, reply.value)).None?)
    ensures r.QuizSuccess? ==>
              (reply.Ok? && m == QuizMode
               && (parse(Trim(Python, reply.value)) == Some(r.quiz)
                   || (JsonBlock(Trim(Python, reply.value)).Some?
                       && parse(JsonBlock(Trim(Python, reply.value)).value) == Some(r.quiz))))
  {
    match reply
    case Err(e) => Error(e)
    case Ok(text) =>
      var result := Trim(Python, text);
      match m
      case Notes => NotesSuccess(result)
      case QuizMode =>
        if parse(result).Some? then QuizSuccess(parse(result).value)
        else if JsonBlock(result).Some? && parse(JsonBlock(result).value).Some? then
          QuizSuccess(parse(JsonBlock(result).value).value)
        else QuizWarning(result)
  }

  /** The whole endpoint as a function of its inputs. */
  function GenerateSpec<J>(form: Form, llm: ChatRequest -> Result<string, string>,
                           parse: string -> Option<J>): (r: Response<J>)
    ensures r.Error? ==> r.message == PdfOnly || r.message == NoInput || r.message == InvalidMode
                         || (Prepare(form).Ok? && llm(Prepare(form).value.request) == Err(r.message))
    ensures !r.Error? ==> Prepare(form).Ok? && llm(Prepare(form).value.request).Ok?
    ensures BadFile(form) ==> r == Error(PdfOnly)
  {
    match Prepare(form)
    case Err(e) => Error(e)
    case Ok(p) => Respond(p.mode, llm(p.request), parse)
  }

  /** The material of a request: the text of every page of the upload,
      each followed by a newline, then the pasted text on a line of its
      own. */
  method GatherContent(form: Form) returns (content: string)
    ensures content == Gathered(form)
  {
    content := "";
    if form.file.Some? {
      var pages := form.file.value.pages;
      var i := 0;
      while i < |pages|
        invariant 0 <= i <= |pages|
        invariant content == PageText(pages[..i])
      {
        var text := pages[i];
        if text.Some? && text.value != "" {
          content := content + text.value + "\n";
        }
        assert pages[..i + 1][..i] == pages[..i];
        i := i + 1;
      }
      assert pages[..i] == pages;
    }
    if form.textInput.Some? && form.textInput.value != "" {
      content := content + "\n" + form.textInput.value;
    }
  }

  /** `generate_content`: builds the material step by step, returns early
      on each failed check, fills in the request parameters for the mode,
      calls the model once and shapes its reply. */
  method GenerateContent<J(==)>(form: Form, llm: ChatRequest -> Result<string, string>,
                                parse: string -> Option<J>) returns (resp: Response<J>)
    ensures resp == GenerateSpec(form, llm, parse)
  {
    if form.file.Some? && !EndsWith(Lower(form.file.value.filename), ".pdf") {
      return Error(PdfOnly);
    }
    var content := GatherContent(form);
    if Trim(Python, content) == [] && !(form.userRequest.Some? && form.userRequest.value != "") {
      return Error(NoInput);
    }
    content := Take(Trim(Python, content), MaxContent);

    var params := ChatRequest(ModelName, [], None);
    var mode := Lower(form.mode);
    if mode == "notes" {
      params := params.(messages := [Message(System, NotesSystem), Message(User, Prompt(Notes, form, content))]);
    } else if mode == "quiz" {
      params := params.(messages := [Message(System, QuizSystem), Message(User, Prompt(QuizMode, form, content))]);
      params := params.(responseFormat := Some(JsonObject));
    } else {
      return Error(InvalidMode);
    }

    var reply := llm(params);
    if reply.Err? {
      return Error(reply.error);
    }
    var result := Trim(Python, reply.value);
    if mode == "quiz" {
      var quizData := parse(result);
      if quizData.Some? {
        return QuizSuccess(quizData.value);
      }
      var jsonMatch := JsonBlock(result);
      if jsonMatch.Some? {
        var cleaned := parse(jsonMatch.value);
        if cleaned.Some? {
          return QuizSuccess(cleaned.value);
        }
      }
      return QuizWarning(result);
    }
    return NotesSuccess(result);
  }

  // Properties of the page text

  /** The material is the page text of the upload, followed by the pasted
      text on a line of its own when there is any; with neither it is
      empty. */
  lemma GatheredParts(form: Form)
    ensures form.file.None? && !Truthy(form.textInput) ==> Gathered(form) == ""
    ensures form.file.Some? ==>
              (|PageText(form.file.value.pages)| <= |Gathered(form)|
               && Gathered(form)[..|PageText(form.file.value.pages)|] == PageText(form.file.value.pages))
    ensures Truthy(form.textInput) ==> EndsWith(Gathered(form), "\n" + form.textInput.value)
    ensures !Truthy(form.textInput) && form.file.Some? ==> Gathered(form) == PageText(form.file.value.pages)
  {
  }

  /** The page text of two runs of pages is the page text of the first
      followed by that of the second. */
  lemma {:induction false} PageTextAppend(a: seq<Option<string>>, b: seq<Option<string>>)
    ensures PageText(a + b) == PageText(a) + PageText(b)
    decreases |b|
  {
    if b == [] {
      assert a + b == a;
    } else {
      var b' := b[..|b| - 1];
      var last := b[|b| - 1];
      assert (a + b)[..|a + b| - 1] == a + b';
      assert (a + b)[|a + b| - 1] == last;
      assert PageText(a + b) == PageText(a + b') + PageLine(last);
      assert PageText(b) == PageText(b') + PageLine(last);
      PageTextAppend(a, b');
    }
  }

  /** A blank or missing page contributes nothing; a page with text
      contributes that text and a newline, in its place. */
  lemma PageTextAt(a: seq<Option<string>>, page: Option<string>, b: seq<Option<string>>)
    ensures PageText(a + [page] + b)
            == PageText(a) + (if Truthy(page) then page.value + "\n" else "") + PageText(b)
  {
    PageTextAppend(a + [page], b);
    assert (a + [page])[..|a + [page]| - 1] == a;
  }

  /** Pages with no text at all give no material. */
  lemma {:induction false} PageTextAllBlank(pages: seq<Option<string>>)
    requires forall k :: 0 <= k < |pages| ==> !Truthy(pages[k])
    ensures PageText(pages) == ""
  {
    if pages != [] {
      PageTextAllBlank(pages[..|pages| - 1]);
    }
  }

  // The order of the checks

  /** A file whose lower-cased name does not end in ".pdf" is refused
      before anything else is looked at, whatever the other fields. */
  lemma NonPdfRefusedFirst<J>(form: Form, llm: ChatRequest -> Result<string, string>,
                              parse: string -> Option<J>)
    requires form.file.Some? && !EndsWith(Lower(form.file.value.filename), ".pdf")
    ensures GenerateSpec(form, llm, parse) == Error(PdfOnly)
    ensures ToDict(GenerateSpec(form, llm, parse)) == map["error" := Str("Only PDF files are supported.")]
  {
  }

  /** The "Please provide" error is returned exactly when the file is
      acceptable (or absent), the stripped material is empty and there is
      no user request; in particular it takes precedence over an invalid
      mode. */
  lemma NoInputIff(form: Form)
    ensures Prepare(form) == Err(NoInput) <==>
      !BadFile(form) && Trim(Python, Gathered(form)) == [] && !Truthy(form.userRequest)
  {
    assert PdfOnly != NoInput && InvalidMode != NoInput;
  }

  /** The invalid-mode error is returned exactly when both earlier checks
      pass and the lower-cased mode is neither "notes" nor "quiz". */
  lemma InvalidModeIff(form: Form)
    ensures Prepare(form) == Err(InvalidMode) <==>
      !BadFile(form) && (Trim(Python, Gathered(form)) != [] || Truthy(form.userRequest))
      && Lower(form.mode) != "notes" && Lower(form.mode) != "quiz"
  {
    assert PdfOnly != InvalidMode && InvalidMode != NoInput;
  }

  /** An empty request with an unknown mode gets the "Please provide"
      error, not the invalid-mode one. */
  lemma EmptyInputBeatsBadMode<J>(mode: string, topic: Option<string>,
                                  llm: ChatRequest -> Result<string, string>, parse: string -> Option<J>)
    ensures GenerateSpec(Form(mode, None, topic, None, None), llm, parse) == Error(NoInput)
  {
    assert Gathered(Form(mode, None, topic, None, None)) == "";
  }

  // Assembly of the material and the request

  /** Validation passes exactly when the filename is acceptable, there is
      some input, and the mode is "notes" or "quiz" in any letter case. */
  lemma PrepareOkIff(form: Form)
    ensures Prepare(form).Ok? <==>
      !BadFile(form) && (Trim(Python, Gathered(form)) != [] || Truthy(form.userRequest))
      && (Lower(form.mode) == "notes" || Lower(form.mode) == "quiz")
  {
  }

  /** The material passed on is the stripped gathered text cut to its
      first 12000 characters: a prefix of it, all of it when it is short
      enough, and never longer than 12000. */
  lemma ContentIsStrippedPrefix(form: Form)
    requires Prepare(form).Ok?
    ensures var c := Prepare(form).value.content;
            var full := Trim(Python, Gathered(form));
            |c| <= 12000 && c == full[..|c|] && (|full| <= 12000 ==> c == full)
            && (|full| > 12000 ==> |c| == 12000)
  {
  }

  /** The user message carries the material, or the no-material text when
      it is empty, right after the topic and request. */
  lemma PromptCarriesMaterial(form: Form)
    requires Prepare(form).Ok?
    ensures var p := Prepare(form).value;
            |p.request.messages| == 2
            && p.request.messages[0] == Message(System, if p.mode == Notes then NotesSystem else QuizSystem)
            && p.request.messages[1].role == User
            && At(p.request.messages[1].content, Material(p.content), |PromptHead(p.mode, form)|)
            && At(p.request.messages[1].content, PromptHead(p.mode, form), 0)
  {
    var p := Prepare(form).value;
    assert p.request == BuildRequest(p.mode, form, p.content);
    AtParts(PromptHead(p.mode, form), Material(p.content), PromptTail(p.mode));
  }

  /** The parts of a concatenation occur in it at their offsets. */
  lemma AtParts(h: string, c: string, t: string)
    ensures At(h + c + t, h, 0) && At(h + c + t, c, |h|)
  {
    assert (h + c + t)[|h|..|h| + |c|] == c;
    assert (h + c + t)[0..|h|] == h;
  }

  /** The mode is "notes" or "quiz" exactly when the field spells that
      word letter by letter, up to ASCII letter case. */
  lemma ParseModeIff(mode: string)
    ensures ParseMode(mode) == Some(Notes) <==>
              |mode| == 5 && forall k :: 0 <= k < 5 ==> LowerChar(mode[k]) == "notes"[k]
    ensures ParseMode(mode) == Some(QuizMode) <==>
              |mode| == 4 && forall k :: 0 <= k < 4 ==> LowerChar(mode[k]) == "quiz"[k]
  {
  }

  /** The mode is matched without regard to ASCII letter case. */
  lemma ModeCaseInsensitive(a: string, b: string)
    requires Lower(a) == Lower(b)
    ensures ParseMode(a) == ParseMode(b)
  {
  }

  /** "Quiz", "QUIZ", "notes" and "NoTeS" are all recognised. */
  lemma ModeExamples()
    ensures ParseMode("Quiz") == Some(QuizMode) && ParseMode("QUIZ") == Some(QuizMode)
    ensures ParseMode("notes") == Some(Notes) && ParseMode("NoTeS") == Some(Notes)
    ensures ParseMode("quizzes") == None
  {
    assert Lower("Quiz") == "quiz";
    assert Lower("QUIZ") == "quiz";
    assert Lower("notes") == "notes";
    assert Lower("NoTeS") == "notes";
    assert Lower("quizzes") == "quizzes";
  }

  /** Only the quiz branch asks for a JSON-object response. */
  lemma JsonFormatOnlyForQuiz(form: Form)
    requires Prepare(form).Ok?
    ensures Prepare(form).value.request.responseFormat.Some? <==> Lower(form.mode) == "quiz"
    ensures Prepare(form).value.request.responseFormat.Some? ==>
              Prepare(form).value.request.responseFormat.value == "json_object"
  {
  }

  // The fenced-block search

  /** A found block sits between the leftmost opener and the first closer
      after it. */
  lemma JsonBlockFound(s: string)
    requires JsonBlock(s).Some?
    ensures var g := JsonBlock(s).value;
      exists p: nat :: (At(s, Opener, p) && (forall j :: 0 <= j < p ==> !At(s, Opener, j))
                   && s[p + 8..p + 8 + |g|] == g && At(s, Closer, p + 8 + |g|)
                   && (forall j :: p + 8 <= j < p + 8 + |g| ==> !At(s, Closer, j)))
  {
    var p := IndexOf(s, Opener, 0).value;
    var q := IndexOf(s, Closer, p + 8).value;
    var g := s[p + 8..q];
    assert JsonBlock(s).value == g;
    assert q == p + 8 + |g|;
    assert At(s, Opener, p) && s[p + 8..p + 8 + |g|] == g && At(s, Closer, p + 8 + |g|);
  }

  /** No block is found exactly when no opener is followed by a closer
      (the closer may not overlap the opener). */
  lemma JsonBlockNone(s: string)
    ensures JsonBlock(s).None? <==>
      forall p: nat, q: nat :: At(s, Opener, p) && p + 8 <= q ==> !At(s, Closer, q)
  {
    if JsonBlock(s).None? {
      match IndexOf(s, Opener, 0)
      case None =>
      case Some(p0) =>
        forall p: nat, q: nat | At(s, Opener, p) && p + 8 <= q
          ensures !At(s, Closer, q)
        {
          assert p0 <= p;
        }
    } else {
      var p := IndexOf(s, Opener, 0).value;
      var q := IndexOf(s, Closer, p + 8).value;
      assert At(s, Opener, p) && p + 8 <= q && At(s, Closer, q);
    }
  }

  // The reply

  /** A model error is returned as an error response carrying its text. */
  lemma ModelErrorReturned<J>(form: Form, llm: ChatRequest -> Result<string, string>,
                              parse: string -> Option<J>, e: string)
    requires Prepare(form).Ok? && llm(Prepare(form).value.request) == Err(e)
    ensures ToDict(GenerateSpec(form, llm, parse)) == map["error" := Str(e)]
  {
  }

  /** Notes mode returns the stripped reply as the notes, with status
      "success" and mode "notes". */
  lemma NotesReply<J>(text: string, parse: string -> Option<J>)
    ensures ToDict(Respond(Notes, Ok(text), parse))
            == map["status" := Str("success"), "mode" := Str("notes"), "notes" := Str(Trim(Python, text))]
  {
  }

  /** In quiz mode a reply that parses as it stands is returned as the
      quiz, with status "success". */
  lemma QuizDirectParse<J>(text: string, parse: string -> Option<J>)
    requires parse(Trim(Python, text)).Some?
    ensures Respond(QuizMode, Ok(text), parse) == QuizSuccess(parse(Trim(Python, text)).value)
    ensures ToDict(Respond(QuizMode, Ok(text), parse))["status"] == Str("success")
  {
  }

  /** Failing that, a fenced JSON block that parses is returned as the
      quiz. */
  lemma QuizFencedParse<J>(text: string, parse: string -> Option<J>)
    requires parse(Trim(Python, text)).None?
    requires JsonBlock(Trim(Python, text)).Some? && parse(JsonBlock(Trim(Python, text)).value).Some?
    ensures ToDict(Respond(QuizMode, Ok(text), parse))
            == map["status" := Str("success"), "mode" := Str("quiz"),
                   "quiz" := Payload(parse(JsonBlock(Trim(Python, text)).value).value)]
  {
  }

  /** Otherwise the response is a warning whose raw output is the stripped
      reply. */
  lemma QuizWarningKeepsReply<J>(text: string, parse: string -> Option<J>)
    requires parse(Trim(Python, text)).None?
    requires JsonBlock(Trim(Python, text)).None? || parse(JsonBlock(Trim(Python, text)).value).None?
    ensures ToDict(Respond(QuizMode, Ok(text), parse))
            == map["status" := Str("warning"), "mode" := Str("quiz"),
                   "message" := Str("Could not parse JSON properly. Here's raw text."),
                   "raw_output" := Str(Trim(Python, text))]
  {
  }

  /** Every response dictionary is either a lone "error" entry or carries
      a "status" and a "mode". */
  lemma DictShape<J>(r: Response<J>)
    ensures ("error" in ToDict(r) && |ToDict(r)| == 1) != ("status" in ToDict(r) && "mode" in ToDict(r))
    ensures "status" in ToDict(r) ==> ToDict(r)["status"] == Str(if r.QuizWarning? then "warning" else "success")
  {
    match r
    case Error(m) =>
      assert ToDict(r) == map["error" := Str(m)];
    case QuizSuccess(q) =>
    case QuizWarning(raw) =>
    case NotesSuccess(n) =>
  }

  /** When validation passes and the model answers, the response names the
      mode it was produced in: "quiz" exactly when the lower-cased mode
      field is "quiz". */
  lemma ResponseMode<J>(form: Form, llm: ChatRequest -> Result<string, string>, parse: string -> Option<J>)
    requires Prepare(form).Ok? && llm(Prepare(form).value.request).Ok?
    ensures ToDict(GenerateSpec(form, llm, parse))["mode"] == Str(if Lower(form.mode) == "quiz" then "quiz" else "notes")
  {
    var p := Prepare(form).value;
    RespondMode(p.mode, llm(p.request), parse);
  }

  /** A reply that is not an error is shaped in the mode it was asked in. */
  lemma RespondMode<J>(m: Mode, reply: Result<string, string>, parse: string -> Option<J>)
    requires reply.Ok?
    ensures ToDict(Respond(m, reply, parse))["mode"] == Str(if m == QuizMode then "quiz" else "notes")
  {
  }
}
