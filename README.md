# RannaGhor chat client and theme toggle, modelled in Dafny

RannaGhor is a React Native app. Its only logic that is not layout is in two files:

- `src/services/ChatService.js` — `chatWithGemini` and `chatWithGeminiMultiModal`. Each builds the
  request URL (`endpoint?key=API_KEY`) and a JSON payload `{contents: [{parts: [...]}]}`, sends it
  in a POST, and reduces the untyped reply to one display string. The reduction uses optional chaining and
  JavaScript truthiness, with the fallback `'Sorry, I did not understand that.'`. Any exception
  becomes an `Error` with one fixed message per function.
- `src/context/ThemeContext.js` — two themes that override colours of the react-native-paper base
  themes, a provider whose state starts on the light theme, and `toggleTheme`, which flips between the
  two themes.

The project has three modules, one file each:

- `js.dfy` (module `Js`) — the bit of JavaScript semantics that the reply expressions depend on.
  Values as parsed from JSON, plus `undefined`. Property access that throws on `undefined`/`null`.
  Optional chaining (`?.`) that short-circuits the rest of the chain. `Array.prototype.find` with a
  callback that reads a property. Truthiness, and `||`. This module is the reference semantics
  against which the typed reducers are checked: its functions are definitions, and the claims about
  the reply expressions rest on `TextReplyAgreesWithJs` and `MultiModalReplyAgreesWithJs`, which
  equate each typed reducer with the evaluation these definitions give.
- `chat_service.dfy` (module `ChatService`) — the typed request side (`Part`, `Content`, `Payload`)
  and response side (`Response`, `Candidate`, `ResponseContent`, `ResponsePart`, each field optional).
  It has the URL and payload builders, the two reducers (`TextReply`, `MultiModalReply`), and the two
  operations as methods (`ChatWithGemini`, `ChatWithGeminiMultiModal`). Each method takes the HTTP
  POST as a parameter `post: (url, payload) -> Reply`, so its contract says which URL and payload
  were sent. The module ends with lemmas proving that each typed reducer equals JavaScript's
  evaluation of the source expression on the JSON body the typed response stands for.
- `theme_context.dfy` (module `ThemeContext`) — themes as a colour map plus an opaque record of the
  other fields. The two custom themes are spreads of override maps over the base themes. The provider
  is a class with a mutable `theme` field and a `ToggleTheme` method.

Some behaviours of the code that the model keeps:

- The text path returns `parts[0].text` only when it is truthy. An empty string gives the fallback,
  not `""`.
- Not every access is optional. A reply without `candidates` throws on both paths. So does a first
  candidate whose `content` has no `parts`: `parts[0]` and `parts.find` are not optional-chained.
  Both cases yield the function's fixed error, not the fallback.
- There is no error taxonomy. Network failures, non-2xx statuses and malformed bodies all become the
  same `Error` message.
- The multimodal payload has two parts only when `encodedImage` is truthy; otherwise it has one.
- A `null` element among the reply's parts is fatal for `find`, whose callback reads `part.text`
  from each element it visits. On the text path a `null` at `parts[0]` is harmless, because of
  `?.text`.
- The API key is a constant of the module, not a configuration value.

## Model

| member | source | states |
|---|---|---|
| `ChatService.ChatUrls` | src/services/ChatService.js:5-7 | the text URL parses back to the gemini-pro endpoint and the multimodal URL to the gemini-pro-vision endpoint, each with the module's key as the only query parameter; the two URLs differ |
| `ChatService.RequestUrl` | src/services/ChatService.js:13 | definition of `${endpoint}?key=${key}`; its properties are in `ChatService.UrlRoundTrip` and `ChatService.ChatUrls` |
| `ChatService.UrlRoundTrip` | src/services/ChatService.js:13 | for an endpoint without `?`, the endpoint and the key can be read back from `endpoint?key=key` |
| `ChatService.TextPayload` | src/services/ChatService.js:14-24 | the text payload decodes to exactly the message, unmodified and with no image: one content entry holding one text part |
| `ChatService.MultiModalPayload` | src/services/ChatService.js:42-50 | one content entry; parts start with `{text: message}`; a second part, with the image, is present if and only if `encodedImage` is truthy; the payload decodes to the message and that image |
| `ChatService.TextPayloadIsMultiModalWithoutImage` | src/services/ChatService.js:40-54 | without an image, or with an empty one, the multimodal payload is the text payload |
| `ChatService.DecodePayloadOnlyBuilt` | src/services/ChatService.js:42-54 | every payload of the shape the client sends is the one the builder makes from its decoded message and image, so the builder and the decoder are inverse |
| `ChatService.FirstContent` | src/services/ChatService.js:31 | definition of `data.candidates[0]?.content`; its agreement with JavaScript is `ChatService.PartsChainAgrees` |
| `ChatService.TextPathText` | src/services/ChatService.js:31 | definition of `data.candidates[0]?.content?.parts[0]?.text`; its properties are in `ChatService.TextReplyReadsFirstPartOnly`, `ChatService.TextReplyMissingFields` and `ChatService.TextReplyAgreesWithJs` |
| `ChatService.FindTextPart` | src/services/ChatService.js:63 | definition of `parts.find(part => part.text)` on typed parts; its properties are in `ChatService.FindTextPartFirst`, `ChatService.FindTextPartNone`, `ChatService.FindTextPartThrows`, `ChatService.FindTextPartCases` and `ChatService.FindAgrees` |
| `ChatService.MultiModalPathText` | src/services/ChatService.js:63 | definition of `candidates[0]?.content?.parts.find(part => part.text)?.text`; its properties are in the `ChatService.MultiModalReply…` lemmas and `ChatService.MultiModalReplyAgreesWithJs` |
| `ChatService.TextReply` | src/services/ChatService.js:31-36 | fails exactly when the request fails or the extraction throws, and then with the text path's fixed message; on success the result is non-empty, and any result other than the fallback is the extracted text |
| `ChatService.MultiModalReply` | src/services/ChatService.js:63-68 | the same for the multimodal path, with its own fixed message |
| `ChatService.ChatWithGemini` | src/services/ChatService.js:10-37 | answers from the reply to one POST of the text payload to the text URL: the result is `TextReply` of that reply: non-empty on success, the fixed error message on failure |
| `ChatService.ChatWithGeminiMultiModal` | src/services/ChatService.js:40-69 | builds the parts by appending the image part when `encodedImage` is truthy, and answers from the reply to one POST of that payload to the multimodal URL: the result is `MultiModalReply` of that reply: non-empty on success, the fixed error message on failure |
| `ChatService.TextReplyReadsFirstPartOnly` | src/services/ChatService.js:31 | whatever parts follow `parts[0]` and whatever other candidates follow the first, the text path answers with `parts[0].text` when it is non-empty and with the fallback otherwise, an empty text included |
| `ChatService.TextReplyMissingFields` | src/services/ChatService.js:31-35 | no `candidates`: error; no candidate, a null candidate, no `content`, no parts, or a null `parts[0]`: fallback; `content` without `parts`: error; a failed request: error |
| `ChatService.FindTextPartFirst` | src/services/ChatService.js:63 | `find` returns the first part with truthy text when every part before it is present |
| `ChatService.FindTextPartNone` | src/services/ChatService.js:63 | `find` returns nothing when every part is present and none has truthy text |
| `ChatService.FindTextPartThrows` | src/services/ChatService.js:63 | `find` throws when it reaches a null part before any part with text |
| `ChatService.FindTextPartCases` | src/services/ChatService.js:63 | every list of parts is in one of the three cases above |
| `ChatService.MultiModalReplyFirstTextPart` | src/services/ChatService.js:63 | the multimodal path answers with the text of the first part that has truthy text, wherever that part stands |
| `ChatService.MultiModalReplyNoText` | src/services/ChatService.js:63 | with no part carrying text, the multimodal path answers with the fallback |
| `ChatService.MultiModalReplyNullPart` | src/services/ChatService.js:63-67 | a null part reached by `find` makes the multimodal path fail with its fixed message |
| `ChatService.MultiModalReplyMissingFields` | src/services/ChatService.js:63-67 | no `candidates`: error; no candidate, a null candidate or no `content`: fallback; `content` without `parts`: error; a failed request: error |
| `ChatService.ImageThenTextPart` | src/services/ChatService.js:31-63 | for parts `[{inline_data}, {text: "hello"}]`, the multimodal path answers `"hello"` and the text path answers with the fallback |
| `ChatService.NullChoicePerField` | src/services/ChatService.js:63 | the JSON a typed response stands for chooses per field between a missing key and `null`: parts `[{text: null}, {}]` are among them |
| `ChatService.FindAgrees` | src/services/ChatService.js:63 | the typed `find` over parts is JavaScript's `parts.find(part => part.text)` over their JSON; this holds for every choice, field by field, of which absent fields the body leaves out and which it gives as `null` |
| `ChatService.PartsChainAgrees` | src/services/ChatService.js:31 | JavaScript's `data.candidates[0]?.content?.parts` throws without `candidates`, gives undefined (ending the chain) when the first candidate or its content is absent, and otherwise reads the typed parts; this holds for every choice, field by field, of which absent fields the body leaves out and which it gives as `null` |
| `ChatService.TextReplyAgreesWithJs` | src/services/ChatService.js:31-35 | for every typed response, the text reducer equals JavaScript's evaluation of `candidates[0]?.content?.parts[0]?.text`, falling back on a falsy value, inside the try/catch, on the response's JSON; this holds for every choice, field by field, of which absent fields the body leaves out and which it gives as `null` |
| `ChatService.MultiModalReplyAgreesWithJs` | src/services/ChatService.js:63-67 | for every typed response, the multimodal reducer equals JavaScript's evaluation of `candidates[0]?.content?.parts.find(part => part.text)?.text`, falling back on a falsy value, inside the try/catch; this holds for every choice, field by field, of which absent fields the body leaves out and which it gives as `null` |
| `ChatService.StringBodyFails` | src/services/ChatService.js:31-36 | a body that arrives as a string (a reply that is not JSON) makes both paths fail with their fixed messages, as a rejected request does |
| `ChatService.ObjectPartsSplitThePaths` | src/services/ChatService.js:31-68 | for a first candidate whose `parts` is an empty object, the text path answers with the fallback and the multimodal path fails with its fixed message |
| `Js.Get` | src/services/ChatService.js:31 | reading a property throws exactly on `undefined` and `null`; a property that is missing from an object, or an index past the end of an array, reads as `undefined` |
| `Js.FindResult` | src/services/ChatService.js:63 | `find` gives undefined or an element of the array whose field is truthy, and throws only when the array holds a `null` or undefined element |
| `Js.OrTruthy` | src/services/ChatService.js:31 | the or-operator on a value and a fallback is truthy exactly when one of the two is, so with the non-empty fallback it is always truthy; applying it twice is applying it once |
| `ThemeContext.Spread` | src/context/ThemeContext.js:6-11 | spreading the base colours and then the overrides gives the keys of both; each overridden key takes its new value and every other key keeps the base value |
| `ThemeContext.CustomLightTheme` | src/context/ThemeContext.js:4-12 | definition of the light theme; its properties are in `ThemeContext.LightThemeChangesOnlyItsOverrides` |
| `ThemeContext.CustomDarkTheme` | src/context/ThemeContext.js:14-27 | definition of the dark theme; its properties are in `ThemeContext.DarkThemeChangesOnlyItsOverrides` |
| `ThemeContext.LightThemeChangesOnlyItsOverrides` | src/context/ThemeContext.js:4-12 | the light theme keeps the base's other fields and sets `primary` `#f97827`, `accent` `#03DAC5` and `primaryContainer` `#FFE0B2`; every other colour is the base light palette's |
| `ThemeContext.DarkThemeChangesOnlyItsOverrides` | src/context/ThemeContext.js:14-27 | the dark theme overrides exactly its eight keys, with the listed values; every other colour is the base dark palette's |
| `ThemeContext.ThemesShareBrandColours` | src/context/ThemeContext.js:8-19 | whatever the base palettes, both themes have `primary = #f97827` and `accent = #03DAC5` |
| `ThemeContext.ThemesDiffer` | src/context/ThemeContext.js:10-22 | whatever the base palettes, the two themes differ (their `primaryContainer`), so comparing by value separates them as the source's comparison by reference does |
| `ThemeContext.DefaultContextTheme` | src/context/ThemeContext.js:31-34 | the context's default theme is the light theme itself, `CustomLightTheme` of the base; so its container colour is `#FFE0B2`, and it is no dark theme for any base palette |
| `ThemeContext.NextTheme` | src/context/ThemeContext.js:42 | the updater always returns one of the two theme constants |
| `ThemeContext.ToggleFlips` | src/context/ThemeContext.js:41-43 | from either theme, a toggle moves to the other one, and two toggles return to the start |
| `ThemeContext.ToggleFromElsewhere` | src/context/ThemeContext.js:42 | any state other than the light theme toggles to the light theme |
| `ThemeContext.ThemeProvider.constructor` | src/context/ThemeContext.js:38-39 | the state starts on the light theme; the two constants are the custom themes over the given base themes |
| `ThemeContext.ThemeProvider.ToggleTheme` | src/context/ThemeContext.js:41-43 | moves light to dark and dark to light, and keeps the state one of the two constants |

## Left out

- The axios POST, its `Content-Type` header and the 60-second timeout on the multimodal path are network I/O. The POST is the parameter `post`, and its result is an input value: a parsed body, or a rejection.
- `console.error` logging in both `catch` blocks is a side effect only.
- The base themes `MD3LightTheme` and `MD3DarkTheme` come from react-native-paper. They are parameters; their non-colour fields are one opaque record that the model copies.
- Theme values are modelled as strings only: the colour map and the opaque record of the other fields both map names to strings. The library's palettes also hold non-string entries (the `elevation` object in `colors`; `dark`, `roundness` and `fonts` among the other fields). No property proved here reads those values; a spread copies them whatever their type.
- React's `createContext`, `useState`, `useContext`, the provider component and rendering are not modelled. The `useState` state is the class field `theme`; `setTheme(updater)` is an assignment of `NextTheme`.
- The no-op `toggleTheme` of the default context value is not modelled, because it does nothing.
- Replies whose JSON does not have the expected shape are not represented by the typed `Response`. For example: a body that is JSON `null` or an array; a `candidates` or `parts` that is a string or an object; a candidate, a `content` or a part that is a string or an array; a `text` that is an object or an array (truthy, so JavaScript would return it as it is). `TextReplyAgreesWithJs` and `MultiModalReplyAgreesWithJs` cover typed replies only, with each absent field, independently of the others, left out or given as `null`. The `Js` module can evaluate the other replies, and on some of them the two paths differ (an object `parts` gives the fallback on the text path and the fixed error on the multimodal path).
- `ChatWithGemini`, `ChatWithGeminiMultiModal`: the contracts say which URL and payload the result is computed from, but `post` is a pure function, so they do not state how many requests are made; the source makes one and does not retry.
- JSON numbers and booleans in a reply are not modelled. A `text` field is a string or absent. In JavaScript a truthy non-string `text` would be returned as it is.
- On arrays and strings, only indices and data properties are modelled. Built-in members such as `length` are not, and neither are numeric-named properties of objects.
- The reply's `inline_data` parts keep only their (absent) `text`, which is all either reducer reads.
- Comparison of themes by reference is modelled as comparison by value. `ThemesDiffer` shows that the two agree on the two theme constants.
- The screens, the drawer navigation and `App.js` are layout and navigation only.
