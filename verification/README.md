# HapticVision chatbot service — verified model

The service forwards a user's text to a hosted language model in one of two
modes. In free-text mode (`chat`) it sends a two-message prompt (a fixed
persona, then the user's text) and returns the model's answer hard-wrapped
by `word_wrap`: cut into consecutive 87-character pieces, ignoring word
boundaries, joined with newlines. In tool-calling mode (`tool_calling`) it
sends a fixed instruction and the user's text as two "user" content entries,
with a catalog of three tools (`navigate`, `haptic_feedback`,
`camera_control`), and returns the function call carried by the first part
of the first candidate of the response, or `None`.

This project models that logic in Dafny:

- `wrappers.dfy` — module `Wrappers`: the `Option` datatype (Python's `None`).
- `word_wrap.dfy` — module `WordWrap`: `word_wrap` as `Chunks` (one piece per
  start position of `range(0, len(text), width)`, recursing on the start
  index) and `Join` (Python's `"\n".join`), with `Wrap` their composition.
- `tool_calling.dfy` — module `ToolCalling`: the response as
  `Response`/`Candidate`/`Part`/`FunctionCall` values, the tool catalog as
  constants, the request contents, and the selection rule `SelectCall`.
- `chat.dfy` — module `Chat`: the chat prompt and the wrapped reply.

Strings are sequences of Dafny `char`s, which are Unicode scalar values;
`word_wrap`'s character counts and slices are those of Python's `str` for
every text made of such characters.

The hosted model is a function-typed parameter (`llm` in `ChatReply`,
`generate` in `ToolCallingReply`): whatever it answers is an input of the
model, so the properties hold for every possible provider behaviour.

## Model

| member | source | states |
|---|---|---|
| WordWrap.ChunksFrom | src/chatbot/service.py:27 | the comprehension over `range(start, len(text), width)` is empty exactly when the start is already at or past the end of the text |
| WordWrap.Chunks | src/chatbot/service.py:27 | the list comprehension's pieces concatenate back to exactly the text (nothing dropped or duplicated), no piece is empty, and every piece has `width` characters except the last, which has at most `width` |
| WordWrap.ChunkCount | src/chatbot/service.py:27 | a non-empty text gives c >= 1 chunks with (c-1)*width < len(text) <= c*width, i.e. c = ceil(len(text)/width) |
| WordWrap.ChunkAt | src/chatbot/service.py:27 | chunk k is `text[k*width : min((k+1)*width, len(text))]`; every chunk but the last has exactly `width` characters, the last between 1 and `width` |
| WordWrap.Join | src/chatbot/service.py:27 | `"\n".join(pieces)` of a non-empty list has the pieces' total length plus one newline per neighbouring pair |
| WordWrap.JoinAt | src/chatbot/service.py:27 | for pieces of full width except a shorter last one, character j of piece k sits at k*(width+1)+j of the newline-joined string, and a newline follows every piece but the last |
| WordWrap.Wrap | src/chatbot/service.py:16-27 | `word_wrap`: empty text wraps to ""; non-empty text no longer than the width is returned unchanged; otherwise the output length is len(text) + chunks - 1 |
| WordWrap.WrapAt | src/chatbot/service.py:27 | position k*(width+1)+j of the output holds `text[k*width+j]` for each character of chunk k, and position k*(width+1)+width holds the inserted newline after each chunk but the last |
| WordWrap.Wrap200 | src/chatbot/service.py:16-27 | a 200-character text at the default width 87 gives three chunks of 87, 87 and 26 characters and a 202-character output |
| WordWrap.WrapNotInvertible | src/chatbot/service.py:27 | two different texts ("ab" at width 1, "a\nb" at width 3) wrap to the same output, so the output cannot be split back into chunks when the text holds newlines |
| ToolCalling.ToolContents | src/chatbot/service.py:113-121 | the request carries two entries, both with role "user" and one text part each: the fixed instruction first, the user's message second |
| ToolCalling.FirstPart | src/chatbot/service.py:126-127 | a first part exists exactly when there is a candidate and the first candidate has a part, and then it is `candidates[0].parts[0]` |
| ToolCalling.SelectCall | src/chatbot/service.py:125-134 | the result is present exactly when the first part of the first candidate exists and carries a function call, and then it is that call's name and args unchanged |
| ToolCalling.ToolCallingReply | src/chatbot/service.py:108-134 | whatever the provider answers to the two entries and the catalog, the result is the first part's function call (name and args) of that answer, or `None` when there is none |
| ToolCalling.SelectCallDependsOnFirstPartOnly | src/chatbot/service.py:126-134 | two responses with the same first part of the first candidate give the same result, whatever else they hold |
| ToolCalling.SelectCallWithoutParts | src/chatbot/service.py:126-134 | no candidates, or a first candidate with no parts, gives `None` |
| ToolCalling.SelectCallFirstPartWithoutCall | src/chatbot/service.py:127-134 | a first part without a function call gives `None` even when later parts or candidates carry calls |
| ToolCalling.SelectCallIgnoresLaterCalls | src/chatbot/service.py:127-132 | with a call in the first part, exactly that call is returned; calls in later parts or candidates are ignored |
| ToolCalling.CatalogNames | src/chatbot/service.py:58-109 | the declared tool names are exactly "navigate", "haptic_feedback" and "camera_control" |
| ToolCalling.SelectCallDoesNotValidate | src/chatbot/service.py:128-132 | every first-part call whose name is not one of the declared tools is returned unchanged, with its args, whatever follows it: the name is not checked against the catalog |
| ToolCalling.SelectCallDoesNotValidateArgs | src/chatbot/service.py:128-132 | a `navigate` call with screen "garage", a value outside every declared enumeration, is returned unchanged: the args are not checked against the schema |
| ToolCalling.SelectCallNavigateCamera | src/chatbot/service.py:128-132 | a first-part call `navigate(screen="camera")` yields `{"name": "navigate", "args": {"screen": "camera"}}` |
| Chat.ChatPrompt | src/chatbot/service.py:37-46 | the prompt is exactly two messages: the fixed persona as system message, then the user's text verbatim as human message |
| Chat.ChatPromptInjective | src/chatbot/service.py:37-46 | the persona message is the same for every user text, and different user texts give different prompts |
| Chat.ChatReply | src/chatbot/service.py:49-52 | the result is `word_wrap` at width 87 of the provider's answer to the two-message prompt (persona, then message), so WrapAt places every character and newline; an empty answer stays empty, one of at most 87 characters is unchanged, a longer one gains one newline per chunk boundary |
| Chat.ChatReply200 | src/chatbot/service.py:49-52 | a 200-character provider answer comes back as 202 characters with newlines at positions 87 and 175 and its first 87 characters unchanged |

## Left out

- The provider calls (`llm.invoke`, `client.models.generate_content`) are network I/O; their answers are the function parameters `llm` and `generate`.
- Loading the API key from the environment and building the module-level client: process configuration.
- `genai.Client()` is built anew on every `tool_calling` call; it reads the environment and may fail, which is I/O outside the model like the provider call itself.
- A candidate whose `content` is absent: `Candidate` holds its parts directly, so the model has no such candidate; in the source, reading `content.parts` of one raises an AttributeError rather than returning `None`.
- Python strings holding lone surrogate code points, which Dafny's `char` (a Unicode scalar value) cannot represent.
- The debug print of the raw answer, and `str(response)`, which is the identity here because the text model already returns a string.
- `dict(part.function_call.args)`: the SDK's argument type is modelled as an already-built `map<string, string>`; argument values are modelled as strings, the only type the catalog declares.
- The tool declarations are recorded as constants with their names, parameter names and enumerations only; their human-readable descriptions and JSON-schema wrapping are payload the service never reads.
- The model identifiers ("gemini-2.5-flash-lite", "gemini-2.5-flash") and the `GenerateContentConfig` wrapping: they only select the provider's behaviour.
- Errors raised by the provider or the network propagate uncaught in the service; the model has no error path for them because it treats the answer as given.
- A `width` of zero raises in `range`; `Chunks` and `Wrap` require `width > 0` instead of modelling that error.
- A negative `width` makes `range(0, n, width)` empty, so `word_wrap` returns "" for every text; `width` is a `nat` here and that case is not modelled. The service itself only uses the default 87.
- main.py (application wiring and server launch) and the router it imports: framework plumbing; the router is not part of this model.
