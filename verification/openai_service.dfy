/** The request sent to the chat-completion service and the post-processing
    of its reply. The HTTP client becomes a function from the request to the
    reply, `json.loads` a function from text to a parsed value or the decode
    error's message, `json.dumps(..., indent=2)` a function from a value to
    text, and the elapsed wall-clock time an opaque float. */
module OpenAiService {
  import opened Wrappers
  import opened Text
  import opened Json
  import opened Errors
  import Config

  const SystemInstruction :=
    "Eres un experto en extracción de información de documentos. "
    + "Debes extraer información relevante y estructurarla en formato JSON. "
    + "Si no encuentras información específica, usa null."

  /** The prompt up to the embedded document text. */
  const PromptOpening := "\nAnaliza el siguiente texto y extrae información relevante en formato JSON:\n\nTEXTO:\n"

  /** The prompt between the document text and the optional schema block. */
  const PromptInstructions :=
    "\n\nINSTRUCCIONES:\n"
    + "- Extrae información como: fechas, nombres de empresas, contactos, direcciones, números, etc.\n"
    + "- Organiza la información de manera lógica en un objeto JSON\n"
    + "- Si no encuentras información específica, usa null\n"
    + "- Mantén los datos originales sin modificar\n"

  const SchemaHeading := "\nUSA ESTE SCHEMA COMO GUÍA:\n"

  const PromptClosing := "\nDevuelve SOLO el JSON, sin explicaciones adicionales."

  /** Message prefixes of the two `OpenAIError`s the service raises. */
  const DecodeErrorPrefix := "Respuesta inválida de OpenAI: "
  const ServiceErrorPrefix := "Error comunicándose con OpenAI: "

  /** What `json.loads(None)` raises when the reply has no content. */
  const NoContentTypeError := "the JSON object must be str, bytes or bytearray, not NoneType"

  /** `{"type": "json_object"}`, the requested response format. */
  const JsonObjectFormat := JObject([("type", JString("json_object"))])

  /** The optional guidance block: present only for a truthy schema. */
  function SchemaBlock(schema: Option<JsonValue>, dumps: JsonValue -> string): string {
    if schema.Some? && Truthy(schema.value) then SchemaHeading + dumps(schema.value) else ""
  }

  /** Where each part of the prompt sits, for any schema block. */
  lemma PromptLayout(text: string, block: string)
    ensures var p := PromptOpening + text + PromptInstructions + block + PromptClosing;
            var n := |PromptOpening| + |text| + |PromptInstructions|;
            && |p| == n + |block| + |PromptClosing|
            && StartsWith(p, PromptOpening)
            && p[|PromptOpening|..|PromptOpening| + |text|] == text
            && p[|PromptOpening| + |text|..n] == PromptInstructions
            && p[n..|p| - |PromptClosing|] == block
            && EndsWith(p, PromptClosing)
  {
    FiveParts(PromptOpening, text, PromptInstructions, block, PromptClosing);
  }

  /** `_build_extraction_prompt`. */
  function BuildExtractionPrompt(text: string, schema: Option<JsonValue>, dumps: JsonValue -> string): (p: string)
    ensures StartsWith(p, PromptOpening)
    ensures |PromptOpening| + |text| <= |p| && p[|PromptOpening|..|PromptOpening| + |text|] == text
    ensures |PromptOpening| + |text| + |PromptInstructions| <= |p|
    ensures p[|PromptOpening| + |text|..|PromptOpening| + |text| + |PromptInstructions|] == PromptInstructions
    ensures EndsWith(p, PromptClosing)
    ensures var fixedLength := |PromptOpening| + |text| + |PromptInstructions| + |PromptClosing|;
            && (schema.None? || !Truthy(schema.value) ==> |p| == fixedLength)
            && (schema.Some? && Truthy(schema.value) ==>
                  && |p| == fixedLength + |SchemaHeading| + |dumps(schema.value)|
                  && p[fixedLength - |PromptClosing|..|p| - |PromptClosing|] == SchemaHeading + dumps(schema.value))
  {
    var block := SchemaBlock(schema, dumps);
    PromptLayout(text, block);
    PromptOpening + text + PromptInstructions + block + PromptClosing
  }

  datatype Message = Message(role: string, content: string)

  /** The arguments of the one chat-completion call. */
  datatype Request = Request(
    model: string,
    messages: seq<Message>,
    maxTokens: int,
    temperature: real,
    responseFormat: JsonValue)

  /** What the service gives back: an exception (from the call itself or from
      reading the first choice), or a completion whose message content may be
      absent and whose usage, when reported, carries the total token count. */
  datatype Reply = Raised(message: string) | Completion(content: Option<string>, totalTokens: Option<int>)

  /** The structured-extraction stage as its callers see it: text and an
      optional schema to a record or an error. */
  type Extractor = (string, Option<JsonValue>) -> Result<JsonValue, AppError>

  /** The one service call made, and what extraction made of its reply. */
  datatype AiCall = AiCall(request: Request, outcome: Result<JsonValue, AppError>)

  /** The `_metadata` entry attached to every successful extraction. */
  function Metadata(elapsed: Float, model: string, totalTokens: Option<int>): JsonValue {
    JObject([
      ("processing_time", JFloat(elapsed)),
      ("model_used", JString(model)),
      ("tokens_used", if totalTokens.Some? then JInt(totalTokens.value) else JNull)])
  }

  /** The metadata names the model that was asked. */
  lemma MetadataNamesModel(elapsed: Float, model: string, totalTokens: Option<int>)
    ensures Metadata(elapsed, model, totalTokens).JObject?
    ensures Lookup(Metadata(elapsed, model, totalTokens).fields, "model_used") == Some(JString(model))
  {
    var fields := Metadata(elapsed, model, totalTokens).fields;
    assert fields[0].0 != "model_used" && fields[1] == ("model_used", JString(model));
    assert KeyIndex(fields, "model_used") == 1;
  }

  /** The message of the TypeError Python raises for `v["_metadata"] = ...` on a non-dict. */
  function ItemAssignmentError(v: JsonValue): string
    requires !v.JObject?
  {
    if v.JList? then "list indices must be integers or slices, not str"
    else "'" + TypeName(v) + "' object does not support item assignment"
  }

  /** `extracted_data["_metadata"] = {...}`: a dict gains (or has replaced) its
      metadata entry and keeps every other entry; anything else raises. */
  function AttachMetadata(parsed: JsonValue, meta: JsonValue): (r: Result<JsonValue, AppError>)
    ensures r.Success? <==> parsed.JObject?
    ensures r.Failure? ==> r.error.kind == OpenAIError
    ensures r.Success? ==>
              && r.value.JObject?
              && Lookup(r.value.fields, "_metadata") == Some(meta)
              && (forall k :: k != "_metadata" ==> Lookup(r.value.fields, k) == Lookup(parsed.fields, k))
              && Keys(r.value.fields) == if "_metadata" in Keys(parsed.fields) then Keys(parsed.fields)
                                         else Keys(parsed.fields) + ["_metadata"]
  {
    if parsed.JObject? then Success(JObject(Put(parsed.fields, "_metadata", meta)))
    else Failure(AppError(OpenAIError, ServiceErrorPrefix + ItemAssignmentError(parsed)))
  }

  /** `extract_structured_data`: one request with fixed parameters, then the
      reply parsed as a JSON object and stamped with `_metadata`; every
      failure is an `OpenAIError`. */
  function ExtractStructuredData(
    text: string,
    schema: Option<JsonValue>,
    settings: Config.Settings,
    service: Request -> Reply,
    loads: string -> Result<JsonValue, string>,
    dumps: JsonValue -> string,
    elapsed: Float): (call: AiCall)
    ensures call.request.model == settings.openaiModel
    ensures call.request.maxTokens == settings.openaiMaxTokens
    ensures call.request.temperature == 0.1
    ensures call.request.responseFormat == JsonObjectFormat
    ensures call.request.messages ==
              [Message("system", SystemInstruction), Message("user", BuildExtractionPrompt(text, schema, dumps))]
    ensures call.outcome.Failure? ==> call.outcome.error.kind == OpenAIError
    ensures var reply := service(call.request);
            call.outcome.Success? <==>
              && reply.Completion? && reply.content.Some?
              && loads(reply.content.value).Success? && loads(reply.content.value).value.JObject?
    ensures var reply := service(call.request);
            call.outcome.Success? ==>
              var parsed := loads(reply.content.value).value;
              && call.outcome.value.JObject?
              && Lookup(call.outcome.value.fields, "_metadata")
                   == Some(Metadata(elapsed, settings.openaiModel, reply.totalTokens))
              && (forall k :: k != "_metadata" ==> Lookup(call.outcome.value.fields, k) == Lookup(parsed.fields, k))
  {
    var prompt := BuildExtractionPrompt(text, schema, dumps);
    var request := Request(
      settings.openaiModel,
      [Message("system", SystemInstruction), Message("user", prompt)],
      settings.openaiMaxTokens,
      0.1,
      JsonObjectFormat);
    var outcome :=
      match service(request)
      case Raised(e) => Failure(AppError(OpenAIError, ServiceErrorPrefix + e))
      case Completion(content, totalTokens) =>
        if content.None? then Failure(AppError(OpenAIError, ServiceErrorPrefix + NoContentTypeError))
        else match loads(content.value)
          case Failure(e) => Failure(AppError(OpenAIError, DecodeErrorPrefix + e))
          case Success(parsed) => AttachMetadata(parsed, Metadata(elapsed, settings.openaiModel, totalTokens));
    AiCall(request, outcome)
  }

  /** Content that does not parse is reported as an invalid response, with
      the decoder's message. */
  lemma UnparseableContentIsInvalidResponse(
    text: string, schema: Option<JsonValue>, settings: Config.Settings, service: Request -> Reply,
    loads: string -> Result<JsonValue, string>, dumps: JsonValue -> string, elapsed: Float)
    requires var reply := service(ExtractStructuredData(text, schema, settings, service, loads, dumps, elapsed).request);
             reply.Completion? && reply.content.Some? && loads(reply.content.value).Failure?
    ensures var call := ExtractStructuredData(text, schema, settings, service, loads, dumps, elapsed);
            call.outcome == Failure(AppError(OpenAIError,
                                    DecodeErrorPrefix + loads(service(call.request).content.value).error))
  {
  }

  /** The same schema and renderer give different prompts for different texts:
      the prompt determines the text it embeds. */
  lemma PromptDeterminesText(t1: string, t2: string, schema: Option<JsonValue>, dumps: JsonValue -> string)
    requires BuildExtractionPrompt(t1, schema, dumps) == BuildExtractionPrompt(t2, schema, dumps)
    ensures t1 == t2
  {
    var p := BuildExtractionPrompt(t1, schema, dumps);
    assert |p| == |PromptOpening| + |t1| + |PromptInstructions| + |SchemaBlock(schema, dumps)| + |PromptClosing|;
    assert |p| == |PromptOpening| + |t2| + |PromptInstructions| + |SchemaBlock(schema, dumps)| + |PromptClosing|;
  }
}
