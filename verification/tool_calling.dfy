/**
  Tool-calling mode of the chatbot service: the fixed three-tool catalog,
  the two content entries sent to the provider, and the rule that picks the
  function call out of the provider's response.
 */
module ToolCalling {
  import opened Wrappers

  /** A function-call directive in a response part; `args` is already a plain mapping. */
  datatype FunctionCall = FunctionCall(name: string, args: map<string, string>)

  /** One content part of a candidate; it may or may not carry a function call. */
  datatype Part = Part(functionCall: Option<FunctionCall>)

  /** One candidate answer; an absent part list is the empty sequence. */
  datatype Candidate = Candidate(parts: seq<Part>)

  /** The provider's response; an absent candidate list is the empty sequence. */
  datatype Response = Response(candidates: seq<Candidate>)

  /** The `{"name": ..., "args": ...}` dictionary returned to the caller. */
  datatype ToolCall = ToolCall(name: string, args: map<string, string>)

  /** One entry of the tool catalog: a single required string parameter restricted to `choices`. */
  datatype ToolDecl = ToolDecl(name: string, param: string, choices: seq<string>)

  const Navigate := ToolDecl("navigate", "screen", ["camera", "haptic", "settings", "home"])
  const HapticFeedback := ToolDecl("haptic_feedback", "emotion", ["neutral", "happy", "angry", "sad"])
  const CameraControl := ToolDecl("camera_control", "action", ["switch_camera"])

  /** The catalog attached to every tool-mode request, in declaration order. */
  const Catalog: seq<ToolDecl> := [Navigate, HapticFeedback, CameraControl]

  /** A `types.Content` entry of the request: a role and its text parts. */
  datatype Content = Content(role: string, texts: seq<string>)

  /** The fixed instruction sent ahead of the user's message. */
  const SystemInstruction: string :=
    "Eres un asistente inteligente para la aplicación HapticVision. Tu objetivo es ayudar al usuario a navegar por la aplicación y controlar sus funciones (cámara, vibración, configuración) mediante comandos de voz. Interpreta la intención del usuario y llama a la herramienta adecuada."

  /** The `contents` list of the request: instruction first, message second, both with role "user". */
  function ToolContents(message: string): (c: seq<Content>)
    ensures |c| == 2
    ensures forall i :: 0 <= i < |c| ==> c[i].role == "user" && |c[i].texts| == 1
    ensures c[0].texts[0] == SystemInstruction && c[1].texts[0] == message
  {
    [Content("user", [SystemInstruction]), Content("user", [message])]
  }

  /** The first part of the first candidate, if both exist. */
  function FirstPart(r: Response): (p: Option<Part>)
    ensures p.Some? <==> |r.candidates| > 0 && |r.candidates[0].parts| > 0
    ensures p.Some? ==> p.value == r.candidates[0].parts[0]
  {
    if |r.candidates| > 0 && |r.candidates[0].parts| > 0
    then Some(r.candidates[0].parts[0])
    else None
  }

  /**
    The selection at the end of `tool_calling`: `None` unless there is a
    candidate with a part, and then only that first part's function call,
    passed through unchanged.
   */
  function SelectCall(r: Response): (res: Option<ToolCall>)
    ensures res.Some? <==> FirstPart(r).Some? && FirstPart(r).value.functionCall.Some?
    ensures res.Some? ==>
      var call := r.candidates[0].parts[0].functionCall.value;
      res.value.name == call.name && res.value.args == call.args
  {
    if |r.candidates| > 0 && |r.candidates[0].parts| > 0 then
      var part := r.candidates[0].parts[0];
      if part.functionCall.Some? then
        Some(ToolCall(part.functionCall.value.name, part.functionCall.value.args))
      else None
    else None
  }

  /**
    `tool_calling(message)`: the provider (`generate`) answers the two
    content entries and the catalog; the result is read from the first part
    of the first candidate of that answer.
   */
  function ToolCallingReply(message: string, generate: (seq<Content>, seq<ToolDecl>) -> Response)
    : (res: Option<ToolCall>)
    ensures var answer := generate(ToolContents(message), Catalog);
      && (res.Some? <==> FirstPart(answer).Some? && FirstPart(answer).value.functionCall.Some?)
      && (res.Some? ==>
            res.value.name == answer.candidates[0].parts[0].functionCall.value.name
            && res.value.args == answer.candidates[0].parts[0].functionCall.value.args)
  {
    SelectCall(generate(ToolContents(message), Catalog))
  }

  // ---------------------------------------------------------------------------
  // Properties of the selection rule
  // ---------------------------------------------------------------------------

  /** The result depends on nothing but the first part of the first candidate. */
  lemma SelectCallDependsOnFirstPartOnly(r1: Response, r2: Response)
    requires FirstPart(r1) == FirstPart(r2)
    ensures SelectCall(r1) == SelectCall(r2)
  {
  }

  /** No candidates, or a first candidate without parts, gives `None`. */
  lemma SelectCallWithoutParts(rest: seq<Candidate>)
    ensures SelectCall(Response([])) == None
    ensures SelectCall(Response([Candidate([])] + rest)) == None
  {
  }

  /**
    A first part without a function call gives `None`, whatever later parts
    and later candidates carry.
   */
  lemma SelectCallFirstPartWithoutCall(later: seq<Part>, others: seq<Candidate>)
    ensures SelectCall(Response([Candidate([Part(None)] + later)] + others)) == None
  {
  }

  /**
    With a function call in the first part, that call is returned and every
    later part and candidate is ignored, even when they carry calls too.
   */
  lemma SelectCallIgnoresLaterCalls(call: FunctionCall, later: seq<Part>, others: seq<Candidate>)
    ensures SelectCall(Response([Candidate([Part(Some(call))] + later)] + others))
         == Some(ToolCall(call.name, call.args))
  {
  }

  /** The names of the declared tools. */
  function CatalogNames(): (names: set<string>)
    ensures names == {"navigate", "haptic_feedback", "camera_control"}
  {
    set d | d in Catalog :: d.name
  }

  /**
    The name is not checked against the catalog: a first-part call to a tool
    that was never declared is passed through as it came, arguments included.
   */
  lemma SelectCallDoesNotValidate(call: FunctionCall, later: seq<Part>, others: seq<Candidate>)
    requires call.name !in CatalogNames()
    ensures SelectCall(Response([Candidate([Part(Some(call))] + later)] + others)).Some?
    ensures SelectCall(Response([Candidate([Part(Some(call))] + later)] + others)).value
         == ToolCall(call.name, call.args)
  {
  }

  /**
    Nor are the arguments checked against the declared enumerations: a
    `navigate` call whose screen is "garage", a value none of the tools
    declares, is returned unchanged.
   */
  lemma SelectCallDoesNotValidateArgs()
    ensures forall d :: d in Catalog ==> "garage" !in d.choices
    ensures SelectCall(Response([Candidate([Part(Some(FunctionCall("navigate", map["screen" := "garage"])))])]))
         == Some(ToolCall("navigate", map["screen" := "garage"]))
  {
  }

  /** A response whose first part calls `navigate` with screen "camera" yields exactly that call. */
  lemma SelectCallNavigateCamera()
    ensures SelectCall(Response([Candidate([Part(Some(FunctionCall("navigate", map["screen" := "camera"])))])]))
         == Some(ToolCall("navigate", map["screen" := "camera"]))
  {
  }
}
