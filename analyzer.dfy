/** The analyser: how the context window of the local model is split
    between the content to read and the answer to write, how content is cut
    to fit, how several sources become one document, and the small state
    machine around loading the model. The model itself (llama-cpp) is a
    parameter: what loading it yields, and what it answers to a request. */
module Analyzer {
  import opened Wrappers
  import opened Text

  // ---------------------------------------------------------------------------
  // Configuration and results

  /** `AnalysisConfig`. */
  datatype AnalysisConfig = AnalysisConfig(
    nCtx: int, nThreads: int, nGpuLayers: int,
    maxTokens: int, temperature: real, topP: real, topK: int, repeatPenalty: real)

  const DefaultAnalysisConfig := AnalysisConfig(4096, 4, -1, 2048, 0.7, 0.9, 40, 1.1)

  /** `AnalysisResult`; missing insight and recommendation lists become empty. */
  datatype AnalysisResult = AnalysisResult(
    success: bool, summary: string, keyInsights: seq<string>,
    recommendations: seq<string>, error: string, tokensUsed: int)

  /** A failed analysis with the given error text. */
  function Failure(error: string): AnalysisResult
  {
    AnalysisResult(false, "", [], [], error, 0)
  }

  const NotLoadedError := "Model not loaded. Call load_model() first."
  const OverflowError :=
    "El contenido es demasiado extenso incluso tras " +
    "el recorte. Intenta con un texto más corto o " +
    "aumenta n_ctx si el modelo lo soporta."
  const NoContentError := "No content provided for analysis"

  // ---------------------------------------------------------------------------
  // The context budget

  /** Tokens kept free for the system prompt and the prompt's wrapping. */
  const SafetyMargin := 200
  /** Below this many input tokens the split is rebalanced. */
  const MinInput := 1000
  /** The input share a rebalanced split aims for. */
  const TargetInput := 2500
  /** Characters assumed per token. */
  const CharsPerToken := 3

  /** The split of the context window: tokens for the content, tokens for
      the answer, and the content's length in characters. */
  datatype Budget = Budget(input: int, output: int, chars: int)

  /** The input share left by the configured output share is too small. */
  predicate Rebalanced(nCtx: int, maxTokens: int)
  {
    nCtx - maxTokens - SafetyMargin < MinInput
  }

  /** The budget of `analyze_content`: what the configured answer length
      leaves, or, when that is under 1000 tokens, `min(2500, n_ctx - 700)`
      with the answer taking the rest. */
  function ComputeBudget(nCtx: int, maxTokens: int): (b: Budget)
    ensures b.input + b.output + SafetyMargin == nCtx
    ensures b.chars == CharsPerToken * b.input
  {
    var available := nCtx - maxTokens - SafetyMargin;
    if available < MinInput then
      var target := if TargetInput < nCtx - SafetyMargin - 500 then TargetInput else nCtx - SafetyMargin - 500;
      Budget(target, nCtx - target - SafetyMargin, CharsPerToken * target)
    else
      Budget(available, maxTokens, CharsPerToken * available)
  }

  /** Without rebalancing the answer gets exactly the configured length;
      with it, the input share is `min(2500, n_ctx - 700)`. */
  lemma BudgetRule(nCtx: int, maxTokens: int)
    ensures var b := ComputeBudget(nCtx, maxTokens);
      && (!Rebalanced(nCtx, maxTokens) ==> b.output == maxTokens && b.input >= MinInput)
      && (Rebalanced(nCtx, maxTokens) ==>
            b.input <= TargetInput && (b.input == TargetInput || b.input == nCtx - 700)
            && b.input <= nCtx - 700)
  {
  }

  /** The configured window of 4096 tokens with 3000 for the answer: input
      2500, answer 1396, 7500 characters. */
  lemma BudgetExample()
    ensures Rebalanced(4096, 3000)
    ensures ComputeBudget(4096, 3000) == Budget(2500, 1396, 7500)
  {
  }

  /** Rebalancing shrinks the answer when more than 500 tokens were asked
      for, and grows it when fewer were: a small window can end up with a
      longer answer than configured. */
  lemma RebalanceDirection(nCtx: int, maxTokens: int)
    requires Rebalanced(nCtx, maxTokens)
    ensures var b := ComputeBudget(nCtx, maxTokens);
      && (b.output < maxTokens <==> maxTokens > 500)
      && (b.output > maxTokens <==> maxTokens < 500)
  {
  }

  /** A window under 700 tokens gives a negative input share, and so a
      negative character budget. */
  lemma SmallWindowNegative(nCtx: int, maxTokens: int)
    requires nCtx < 700 && 0 <= maxTokens
    ensures ComputeBudget(nCtx, maxTokens).chars < 0
  {
  }

  // ---------------------------------------------------------------------------
  // Truncation

  const TruncationMarker :=
    "\n\n...[CONTENIDO TRUNCADO POR LÍMITE DE MEMORIA " +
    "DEL MODELO]..."

  /** Content longer than the budget is cut to `content[:chars]` (a Python
      slice) with the marker after it. */
  function Truncate(content: string, chars: int): string
  {
    if |content| > chars then Prefix(content, chars) + TruncationMarker else content
  }

  /** Content within the budget is unchanged; longer content keeps its
      first `chars` characters and gains the marker; a negative budget cuts
      characters off the END instead. */
  lemma TruncateSpec(content: string, chars: int)
    ensures |content| <= chars ==> Truncate(content, chars) == content
    ensures 0 <= chars < |content| ==>
      && Truncate(content, chars) == content[..chars] + TruncationMarker
      && |Truncate(content, chars)| == chars + |TruncationMarker|
    ensures chars < 0 ==>
      var kept := if |content| + chars > 0 then |content| + chars else 0;
      Truncate(content, chars) == content[..kept] + TruncationMarker
  {
  }

  // ---------------------------------------------------------------------------
  // The request to the model

  /** The system message of every request. */
  const SystemPrompt :=
    "Eres PRISMA, un asistente de investigación profesional. " +
    "Tu tarea es analizar contenido web y generar " +
    "informes claros y útiles.\n" +
    "\nINSTRUCCIONES:\n1. Analiza el contenido proporcionado " +
    "de forma objetiva\n2. Identifica los puntos clave " +
    "y hallazgos principales\n" +
    "3. Sintetiza la información en un resumen ejecutivo\n" +
    "4. Proporciona insights accionables cuando sea " +
    "posible\n5. Mantén un tono profesional y conciso\n" +
    "\nFORMATO DE RESPUESTA:\n" +
    "- Usa Markdown para estructurar tu respuesta\n" +
    "- Incluye secciones claras: Resumen, Puntos Clave, " +
    "Conclusiones\n- Cita fuentes específicas cuando " +
    "sea relevante\n- No inventes información que no " +
    "esté en el contenido"

  const DefaultInstruction :=
    "Analiza el siguiente contenido de investigación " +
    "y genera un informe estructurado:"

  /** A custom prompt: a text given by the caller, or the instruction of
      the research report for `count` sources on `topic`. */
  datatype Prompt = Given(text: string) | ReportPrompt(count: nat, topic: string)

  const ReportOpening := "Eres un investigador profesional. Analiza las "
  const ReportTopicLead := " fuentes proporcionadas sobre \""
  const ReportRequirements :=
    "\" y genera un informe de investigación completo.\n" +
    "\nGENERA UN INFORME CON:\n" +
    "1. **Resumen Ejecutivo**: Síntesis de 2-3 párrafos " +
    "de los hallazgos principales\n" +
    "2. **Puntos Clave**: Lista numerada de los 7-10 " +
    "puntos más importantes\n" +
    "3. **Análisis Comparativo**: Si hay diferentes " +
    "perspectivas, compáralas\n" +
    "4. **Conclusiones**: Síntesis final y observaciones\n" +
    "5. **Recomendaciones**: Acciones sugeridas basadas " +
    "en la investigación\n" +
    "\nUsa formato Markdown. Sé objetivo y cita las " +
    "fuentes cuando corresponda."

  /** The text of a custom prompt; the report's names the number of
      sources and the topic. */
  function PromptText(p: Prompt): string
  {
    match p
    case Given(text) => text
    case ReportPrompt(count, topic) =>
      ReportOpening + DecimalString(count) + ReportTopicLead + topic + ReportRequirements
  }

  /** What `create_chat_completion` is asked: the custom prompt, the
      content as it goes into the user message, and the sampling
      parameters. `Messages` renders the two chat messages. */
  datatype InferenceRequest = InferenceRequest(
    prompt: Option<Prompt>, content: string, maxTokens: int,
    temperature: real, topP: real, topK: int, repeatPenalty: real)

  /** What the model gives back: the answer with its token count, or an
      exception's text. */
  datatype InferenceReply = Completed(output: string, tokensUsed: int) | Failed(message: string)

  /** `custom_prompt or default`: an absent or empty custom prompt falls
      back to the default instruction. */
  function Instruction(prompt: Option<Prompt>): string
  {
    if prompt.Some? && PromptText(prompt.value) != "" then PromptText(prompt.value) else DefaultInstruction
  }

  /** The user message: the instruction, then the content between rules. */
  function UserPrompt(instruction: string, content: string): string
  {
    instruction + "\n\n---\nCONTENIDO A ANALIZAR:\n" + content + "\n---"
  }

  /** The system and user messages of a request. */
  function Messages(r: InferenceRequest): (string, string)
  {
    (SystemPrompt, UserPrompt(Instruction(r.prompt), r.content))
  }

  /** The user message opens with the instruction and closes with the
      content and the closing rule. */
  lemma UserPromptLayout(instruction: string, content: string)
    ensures StartsWith(UserPrompt(instruction, content), instruction)
    ensures EndsWith(UserPrompt(instruction, content), content + "\n---")
  {
    var mid := "\n\n---\nCONTENIDO A ANALIZAR:\n";
    var tail := content + "\n---";
    assert UserPrompt(instruction, content) == instruction + (mid + tail);
    assert (instruction + (mid + tail))[..|instruction|] == instruction;
    assert (instruction + mid + tail)[|instruction + mid|..] == tail;
  }

  /** The report's instruction is never empty, so it is never replaced by
      the default one. */
  lemma ReportInstruction(count: nat, topic: string)
    ensures Instruction(Some(ReportPrompt(count, topic))) == PromptText(ReportPrompt(count, topic))
  {
    assert |ReportOpening| > 0;
  }

  /** The request `analyze_content` sends for `content`. */
  function RequestFor(config: AnalysisConfig, content: string, prompt: Option<Prompt>): InferenceRequest
  {
    var b := ComputeBudget(config.nCtx, config.maxTokens);
    InferenceRequest(prompt, Truncate(content, b.chars), b.output,
      config.temperature, config.topP, config.topK, config.repeatPenalty)
  }

  /** The request asks for the rebalanced answer length, not the configured
      one, and carries the content as truncated to the budget. */
  lemma RequestUsesBudget(config: AnalysisConfig, content: string, prompt: Option<Prompt>)
    ensures var r := RequestFor(config, content, prompt);
      var b := ComputeBudget(config.nCtx, config.maxTokens);
      && r.maxTokens == b.output
      && r.maxTokens + b.input + SafetyMargin == config.nCtx
      && r.content == Truncate(content, b.chars)
      && r.prompt == prompt
  {
  }

  /** The user message of a request opens with its instruction and closes
      with its content and the closing rule. */
  lemma MessagesLayout(r: InferenceRequest)
    ensures StartsWith(Messages(r).1, Instruction(r.prompt))
    ensures EndsWith(Messages(r).1, r.content + "\n---")
  {
    UserPromptLayout(Instruction(r.prompt), r.content);
  }

  /** How the reply becomes a result: an answer is a success; an exception
      mentioning the context window gets the fixed overflow text, any other
      its own text. */
  function Interpret(reply: InferenceReply): (r: AnalysisResult)
  {
    match reply
    case Completed(output, tokens) => AnalysisResult(true, output, [], [], "", tokens)
    case Failed(message) =>
      if Contains(message, "exceed context window") then Failure(OverflowError) else Failure(message)
  }

  /** The result succeeds exactly when the model answered, and then carries
      its answer; a failure never raises and always says why. */
  lemma InterpretSpec(reply: InferenceReply)
    ensures var r := Interpret(reply);
      && (r.success <==> reply.Completed?)
      && (reply.Completed? ==> r.summary == reply.output && r.tokensUsed == reply.tokensUsed && r.error == "")
      && (reply.Failed? && Contains(reply.message, "exceed context window") ==> r == Failure(OverflowError))
      && (reply.Failed? && !Contains(reply.message, "exceed context window") ==> r.error == reply.message)
      && (!r.success ==> r.summary == "" && r.tokensUsed == 0)
  {
  }

  // ---------------------------------------------------------------------------
  // The research report

  /** The share of one source in the report: its first 3000 characters. */
  function Cap(content: string): (r: string)
  {
    if |content| > 3000 then content[..3000] else content
  }

  /** A capped source is the source itself or its first 3000 characters. */
  lemma CapSpec(content: string)
    ensures |Cap(content)| <= 3000
    ensures Cap(content) == content[..|Cap(content)|]
    ensures |content| <= 3000 ==> Cap(content) == content
  {
  }

  /** The block of the source numbered `n`. */
  function SourceBlock(n: nat, content: string): string
  {
    "\n## Fuente " + DecimalString(n) + "\n" + Cap(content) + "\n"
  }

  /** The blocks of `contents`, numbered from `first` in order. */
  function Sources(contents: seq<string>, first: nat): string
  {
    if contents == [] then ""
    else Sources(contents[..|contents| - 1], first) + SourceBlock(first + |contents| - 1, contents[|contents| - 1])
  }

  /** The numbering carries across a split of the sources: the blocks of
      `a + b` are those of `a`, then those of `b` numbered on from `a`. */
  lemma {:induction false} SourcesAppend(a: seq<string>, b: seq<string>, first: nat)
    ensures Sources(a + b, first) == Sources(a, first) + Sources(b, first + |a|)
  {
    if b == [] {
      AppendNil(a);
    } else {
      var init := b[..|b| - 1];
      var last := b[|b| - 1];
      InitOfAppend(a, b);
      SourcesAppend(a, init, first);
      AppendAssoc(Sources(a, first), Sources(init, first + |a|), SourceBlock(first + |a| + |b| - 1, last));
    }
  }

  /** One source alone is its single block. */
  lemma SourcesSingle(content: string, n: nat)
    ensures Sources([content], n) == SourceBlock(n, content)
  {
    assert [content][..0] == [];
  }

  /** The document the report analyses: the topic header, then the sources. */
  function Combined(topic: string, contents: seq<string>): string
  {
    "# Investigación: " + topic + "\n\n" + Sources(contents, 1)
  }

  // ---------------------------------------------------------------------------
  // The analyser

  /** What loading the model file yields. */
  datatype LoadOutcome = Loaded | LibraryMissing | LoadFailed(message: string)

  /** The messages `_notify` sends to the progress callback. */
  datatype Notice = LoadingModel | ModelReady | LibraryNotInstalled | LoadError(excerpt: string)
                  | Analysing | AnalysisDone

  /** The text of a notice. */
  function NoticeText(n: Notice): string
  {
    match n
    case LoadingModel => "Cargando modelo en memoria..."
    case ModelReady => "Modelo listo para análisis"
    case LibraryNotInstalled => "Error: librería llama-cpp no instalada"
    case LoadError(excerpt) => "Error: " + excerpt
    case Analysing => "Generando análisis..."
    case AnalysisDone => "Análisis completado"
  }

  /** The notice of a failed load quotes at most 50 characters of the
      error, taken from its start. */
  lemma LoadErrorExcerpt(message: string)
    ensures var t := NoticeText(LoadError(Prefix(message, 50)));
      |t| <= 57 && EndsWith(t, Prefix(message, 50)) && StartsWith(message, Prefix(message, 50))
  {
    var e := Prefix(message, 50);
    assert ("Error: " + e)[7..] == e;
  }

  /** The notices of a load attempt that gets as far as loading. */
  function LoadNotices(hasCallback: bool, load: LoadOutcome): (n: seq<Notice>)
    ensures hasCallback <==> n != []
    ensures hasCallback ==> |n| == 2 && n[0] == LoadingModel && (n[1] == ModelReady <==> load.Loaded?)
  {
    if !hasCallback then []
    else
      [LoadingModel] +
      match load
      case Loaded => [ModelReady]
      case LibraryMissing => [LibraryNotInstalled]
      case LoadFailed(m) => [LoadError(Prefix(m, 50))]
  }

  /** The notices of an analysis that reaches the model. */
  function AnalysisNotices(hasCallback: bool, success: bool): (n: seq<Notice>)
    ensures hasCallback <==> n != []
    ensures hasCallback ==> n[0] == Analysing && (AnalysisDone in n <==> success)
  {
    if !hasCallback then [] else [Analysing] + (if success then [AnalysisDone] else [])
  }

  /** `AIAnalyzer`: its configuration, the model path, whether a model is in
      memory, whether a progress callback is set, the notices delivered to
      that callback, and the requests sent to the model. */
  class AIAnalyzer {
    var config: AnalysisConfig
    var modelPath: Option<string>
    var model: bool
    var isLoaded: bool
    var hasCallback: bool
    var notices: seq<Notice>
    var requests: seq<InferenceRequest>

    /** A model is in memory exactly when the analyser says it is loaded. */
    predicate Valid()
      reads this
    {
      model == isLoaded
    }

    /** `AIAnalyzer(model_path, config)`, with the default configuration for
        `None`. */
    constructor(modelPath: Option<string>, config: Option<AnalysisConfig>)
      ensures Valid()
      ensures this.config == (if config.Some? then config.value else DefaultAnalysisConfig)
      ensures this.modelPath == modelPath && !isLoaded && !hasCallback
      ensures notices == [] && requests == []
    {
      this.config := if config.Some? then config.value else DefaultAnalysisConfig;
      this.modelPath := modelPath;
      model := false;
      isLoaded := false;
      hasCallback := false;
      notices := [];
      requests := [];
    }

    /** `set_progress_callback`. */
    method SetProgressCallback()
      modifies this`hasCallback
      ensures hasCallback
    {
      hasCallback := true;
    }

    /** `_notify`: the notice reaches the callback when there is one. */
    method Notify(notice: Notice)
      modifies this`notices
      ensures notices == old(notices) + if hasCallback then [notice] else []
    {
      if hasCallback {
        notices := notices + [notice];
      }
    }

    /** `load_model`: nothing to do when loaded; otherwise the given path,
        the stored one, or the downloader's default when the model file is
        there; then the outcome of loading it. */
    method LoadModel(path: Option<string>, defaultAvailable: bool, defaultPath: string, load: LoadOutcome)
      returns (ok: bool)
      requires Valid()
      modifies this`modelPath, this`model, this`isLoaded, this`notices
      ensures Valid()
      ensures old(isLoaded) ==> ok && isLoaded && modelPath == old(modelPath) && notices == old(notices)
      ensures !old(isLoaded) && path.None? && old(modelPath).None? && !defaultAvailable ==>
        !ok && !isLoaded && modelPath.None? && notices == old(notices)
      ensures !old(isLoaded) && (path.Some? || old(modelPath).Some? || defaultAvailable) ==>
        && modelPath == Some(if path.Some? then path.value else if old(modelPath).Some? then old(modelPath).value else defaultPath)
        && (ok <==> load.Loaded?) && (isLoaded <==> load.Loaded?)
        && notices == old(notices) + LoadNotices(hasCallback, load)
    {
      if isLoaded {
        return true;
      }
      var chosen := if path.Some? then path else modelPath;
      if chosen.None? {
        if !defaultAvailable {
          return false;
        }
        chosen := Some(defaultPath);
      }
      modelPath := chosen;
      Notify(LoadingModel);
      match load {
        case Loaded =>
          model := true;
          isLoaded := true;
          Notify(ModelReady);
          ok := true;
        case LibraryMissing =>
          Notify(LibraryNotInstalled);
          ok := false;
        case LoadFailed(m) =>
          Notify(LoadError(Prefix(m, 50)));
          ok := false;
      }
    }

    /** `unload_model`: frees the model and marks the analyser unloaded. */
    method UnloadModel()
      requires Valid()
      modifies this`model, this`isLoaded
      ensures Valid() && !isLoaded
    {
      if model {
        model := false;
        isLoaded := false;
      }
    }

    /** `analyze_content`: refuses without a model; otherwise sends the
        budgeted request and interprets the reply. Never raises. */
    method AnalyzeContent(content: string, prompt: Option<Prompt>, infer: InferenceRequest -> InferenceReply)
      returns (result: AnalysisResult)
      modifies this`notices, this`requests
      ensures !isLoaded ==> result == Failure(NotLoadedError) && requests == old(requests) && notices == old(notices)
      ensures isLoaded ==>
        var request := RequestFor(config, content, prompt);
        && result == Interpret(infer(request))
        && requests == old(requests) + [request]
        && notices == old(notices) + AnalysisNotices(hasCallback, result.success)
    {
      if !isLoaded {
        return Failure(NotLoadedError);
      }
      var b := ComputeBudget(config.nCtx, config.maxTokens);
      var text := content;
      if |text| > b.chars {
        text := Prefix(text, b.chars) + TruncationMarker;
      }
      var request := InferenceRequest(prompt, text, b.output,
        config.temperature, config.topP, config.topK, config.repeatPenalty);
      Notify(Analysing);
      requests := requests + [request];
      var reply := infer(request);
      result := Interpret(reply);
      if reply.Completed? {
        Notify(AnalysisDone);
      }
    }

    /** `generate_research_report`: refuses an empty list; otherwise builds
        the combined document source by source and analyses it with the
        report's instruction. */
    method GenerateResearchReport(contents: seq<string>, topic: string, infer: InferenceRequest -> InferenceReply)
      returns (result: AnalysisResult)
      modifies this`notices, this`requests
      ensures contents == [] ==> result == Failure(NoContentError) && requests == old(requests) && notices == old(notices)
      ensures contents != [] && !isLoaded ==>
        result == Failure(NotLoadedError) && requests == old(requests) && notices == old(notices)
      ensures contents != [] && isLoaded ==>
        var request := RequestFor(config, Combined(topic, contents), Some(ReportPrompt(|contents|, topic)));
        && result == Interpret(infer(request))
        && requests == old(requests) + [request]
        && notices == old(notices) + AnalysisNotices(hasCallback, result.success)
    {
      if contents == [] {
        return Failure(NoContentError);
      }
      var header := "# Investigación: " + topic + "\n\n";
      var combined := header;
      for i := 0 to |contents|
        invariant combined == header + Sources(contents[..i], 1)
        invariant requests == old(requests) && notices == old(notices)
      {
        var truncated := if |contents[i]| > 3000 then contents[i][..3000] else contents[i];
        TakeTake(contents, i, i + 1);
        combined := combined + ("\n## Fuente " + DecimalString(i + 1) + "\n" + truncated + "\n");
        AppendAssoc(header, Sources(contents[..i], 1), SourceBlock(i + 1, contents[i]));
      }
      TakeAll(contents);
      result := AnalyzeContent(combined, Some(ReportPrompt(|contents|, topic)), infer);
    }
  }

  /** The sources appear as one numbered block each, in order: the blocks
      before source `i`, then the block of source `i` numbered `i + 1`,
      then the rest. */
  lemma SourcesLayout(contents: seq<string>, i: int)
    requires 0 <= i < |contents|
    ensures Sources(contents, 1) ==
      Sources(contents[..i], 1) + (SourceBlock(i + 1, contents[i]) + Sources(contents[i + 1..], i + 2))
  {
    var rest := contents[i..];
    SplitAt(contents, i);
    SourcesAppend(contents[..i], rest, 1);
    DropCons(contents, i);
    SourcesAppend([contents[i]], contents[i + 1..], i + 1);
    SourcesSingle(contents[i], i + 1);
  }
}
