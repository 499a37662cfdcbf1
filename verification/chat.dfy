/**
  Free-text mode of the chatbot service: the two-message prompt and the
  wrapping of the provider's answer.
 */
module Chat {
  import WordWrap

  /** The messages of a chat-model prompt. */
  datatype Message = SystemMessage(content: string) | HumanMessage(content: string)

  /** The fixed persona sent as the system message. */
  const Persona: string :=
    "Eres un asistente inteligente para la aplicación HapticVision. Tu objetivo es ayudar al usuario a navegar por la aplicación y controlar sus funciones mediante comandos de voz. Responde de manera breve y útil."

  /** The prompt of `chat`: the persona as system message, then the user's text verbatim. */
  function ChatPrompt(message: string): (p: seq<Message>)
    ensures |p| == 2
    ensures p[0].SystemMessage? && p[0].content == Persona
    ensures p[1].HumanMessage? && p[1].content == message
  {
    [SystemMessage(Persona), HumanMessage(message)]
  }

  /**
    `chat(message)`: the provider (`llm`) answers the two-message prompt with
    a string, which is returned as `word_wrap` of it at the default width.
   */
  function ChatReply(message: string, llm: seq<Message> -> string): (answer: string)
    ensures var reply := llm([SystemMessage(Persona), HumanMessage(message)]);
      && answer == WordWrap.Wrap(reply, WordWrap.DefaultWidth)
      && (|reply| == 0 ==> answer == "")
      && (0 < |reply| <= WordWrap.DefaultWidth ==> answer == reply)
      && (|reply| > 0 ==> |answer| == |reply| + |WordWrap.Chunks(reply, WordWrap.DefaultWidth)| - 1)
  {
    WordWrap.Wrap(llm(ChatPrompt(message)), WordWrap.DefaultWidth)
  }

  /** Different user texts give different prompts, and the persona is the same for all. */
  lemma ChatPromptInjective(a: string, b: string)
    ensures ChatPrompt(a) == ChatPrompt(b) <==> a == b
    ensures ChatPrompt(a)[0] == ChatPrompt(b)[0]
  {
  }

  /**
    A provider that answers with 200 characters gives three lines of 87, 87
    and 26 characters: newlines at positions 87 and 175 and 202 characters
    in all.
   */
  lemma ChatReply200(message: string, llm: seq<Message> -> string)
    requires |llm(ChatPrompt(message))| == 200
    ensures |ChatReply(message, llm)| == 202
    ensures ChatReply(message, llm)[87] == '\n' && ChatReply(message, llm)[175] == '\n'
    ensures ChatReply(message, llm)[..87] == llm(ChatPrompt(message))[..87]
  {
    var reply := llm(ChatPrompt(message));
    WordWrap.Wrap200(reply);
    WordWrap.WrapAt(reply, WordWrap.DefaultWidth, 0, 87);
    WordWrap.WrapAt(reply, WordWrap.DefaultWidth, 1, 87);
    forall j | 0 <= j < 87
      ensures ChatReply(message, llm)[j] == reply[j]
    {
      WordWrap.WrapAt(reply, WordWrap.DefaultWidth, 0, j);
    }
  }
}
