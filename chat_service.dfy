/** The chat client of src/services/ChatService.js: it builds the request URL
    and JSON payload for the text-only and the text-and-image endpoints, and
    answers from the reply to one POST of that payload to that URL, reducing the
    untyped response to one display string and turning every failure into one
    fixed error message per operation. The HTTP POST itself is the parameter
    `post`. */
module ChatService {
  import Js

  datatype Option<T> = None | Some(value: T)

  /** A resolved call (`Ok`) or the `Error` the operation throws (`Err`). */
  datatype Result<T> = Ok(value: T) | Err(message: string)

  const API_KEY: string := "your_api_key_here"
  /** The two endpoints share scheme, host and path prefix; written in pieces,
      their text is that of the source's two URL constants. */
  const HOST: string := "generativelanguage.googleapis.com"
  const MODELS_URL: string := "https://" + HOST + "/v1beta/models/"
  const API_URL: string := MODELS_URL + "gemini-pro:generateContent"
  const API_URL_MULTI_MODAL: string := MODELS_URL + "gemini-pro-vision:generateContent"
  const JPEG_MIME_TYPE: string := "image/jpeg"
  const FALLBACK: string := "Sorry, I did not understand that."
  const TEXT_ERROR: string := "Failed to fetch response from chatWithGemini"
  const MULTI_MODAL_ERROR: string := "Failed to fetch response from chatWithGeminiMultiModal"

  /** JavaScript truthiness of a value that is either absent (undefined or
      null) or a string: only a non-empty string is truthy. */
  predicate Truthy(v: Option<string>) {
    v.Some? && v.value != ""
  }

  /** `v || fallback` on an optional string. */
  function OrElse(v: Option<string>, fallback: string): string {
    if Truthy(v) then v.value else fallback
  }

  // ---------------------------------------------------------------------------
  // Request URL: `${endpoint}?key=${key}`

  function RequestUrl(endpoint: string, key: string): string {
    endpoint + "?key=" + key
  }

  /** Splits a URL at its first '?': the part before it, and the query after it
      when there is a '?'. */
  function SplitAtQuery(url: string): (string, Option<string>) {
    if url == [] then ([], None)
    else if url[0] == '?' then ([], Some(url[1..]))
    else
      var rest := SplitAtQuery(url[1..]);
      ([url[0]] + rest.0, rest.1)
  }

  /** Reads a URL back into its endpoint and the value of a query that consists
      of the single parameter `key`. */
  function ParseUrl(url: string): Option<(string, string)> {
    var split := SplitAtQuery(url);
    if split.1.Some? && |split.1.value| >= 4 && split.1.value[..4] == "key="
    then Some((split.0, split.1.value[4..]))
    else None
  }

  lemma {:induction false} SplitAtFirstQuery(path: string, query: string)
    requires '?' !in path
    ensures SplitAtQuery(path + "?" + query) == (path, Some(query))
  {
    if path == [] {
      assert path + "?" + query == ['?'] + query;
    } else {
      assert (path + "?" + query)[1..] == path[1..] + "?" + query;
      SplitAtFirstQuery(path[1..], query);
      assert [path[0]] + path[1..] == path;
    }
  }

  /** The endpoint and the key can be read back from the request URL, so the
      key is the whole of its query. */
  lemma UrlRoundTrip(endpoint: string, key: string)
    requires '?' !in endpoint
    ensures ParseUrl(RequestUrl(endpoint, key)) == Some((endpoint, key))
  {
    assert RequestUrl(endpoint, key) == endpoint + "?" + ("key=" + key);
    SplitAtFirstQuery(endpoint, "key=" + key);
    assert ("key=" + key)[..4] == "key=" && ("key=" + key)[4..] == key;
  }

  /** The text path posts to the gemini-pro endpoint and the multimodal path to
      gemini-pro-vision, each with the module's key. */
  lemma ChatUrls()
    ensures ParseUrl(RequestUrl(API_URL, API_KEY)) == Some((API_URL, API_KEY))
    ensures ParseUrl(RequestUrl(API_URL_MULTI_MODAL, API_KEY)) == Some((API_URL_MULTI_MODAL, API_KEY))
    ensures RequestUrl(API_URL, API_KEY) != RequestUrl(API_URL_MULTI_MODAL, API_KEY)
  {
    assert '?' !in HOST;
    UrlRoundTrip(API_URL, API_KEY);
    UrlRoundTrip(API_URL_MULTI_MODAL, API_KEY);
  }

  // ---------------------------------------------------------------------------
  // Request payload: {contents: [{parts: [...]}]}

  /** `{text: s}` or `{inline_data: {mime_type, data}}`. */
  datatype Part = Text(text: string) | Inline(mimeType: string, data: string)
  datatype Content = Content(parts: seq<Part>)
  datatype Payload = Payload(contents: seq<Content>)

  /** What one outgoing request carries: the user's message and, optionally,
      a base64-encoded JPEG. */
  datatype Request = Request(message: string, image: Option<string>)

  /** Reads a payload back into the request it carries; `None` for any payload
      not of the form the client sends: one content entry whose parts are a text
      part, optionally followed by one non-empty JPEG inline part. */
  function DecodePayload(p: Payload): Option<Request> {
    if |p.contents| != 1 then None
    else
      var parts := p.contents[0].parts;
      if |parts| == 1 && parts[0].Text? then Some(Request(parts[0].text, None))
      else if |parts| == 2 && parts[0].Text? && parts[1].Inline?
              && parts[1].mimeType == JPEG_MIME_TYPE && parts[1].data != ""
      then Some(Request(parts[0].text, Some(parts[1].data)))
      else None
  }

  /** The text-only payload: one content entry holding the single part
      `{text: userMessage}`. */
  function TextPayload(userMessage: string): (p: Payload)
    ensures DecodePayload(p) == Some(Request(userMessage, None))
  {
    Payload([Content([Text(userMessage)])])
  }

  /** The multimodal payload: `{text: message}` first, then a JPEG part with
      the image exactly when `encodedImage` is truthy. */
  function MultiModalPayload(message: string, encodedImage: Option<string>): (p: Payload)
    ensures |p.contents| == 1 && |p.contents[0].parts| == (if Truthy(encodedImage) then 2 else 1)
    ensures p.contents[0].parts[0] == Text(message)
    ensures DecodePayload(p) == Some(Request(message, if Truthy(encodedImage) then encodedImage else None))
  {
    var image := if Truthy(encodedImage) then [Inline(JPEG_MIME_TYPE, encodedImage.value)] else [];
    Payload([Content([Text(message)] + image)])
  }

  /** Without an image the two builders send the same body. */
  lemma TextPayloadIsMultiModalWithoutImage(message: string)
    ensures TextPayload(message) == MultiModalPayload(message, None)
    ensures TextPayload(message) == MultiModalPayload(message, Some(""))
  {
    assert [Text(message)] + [] == [Text(message)];
  }

  /** Every payload `DecodePayload` accepts is one the multimodal builder makes,
      so the two are inverse on the payloads the client sends. */
  lemma DecodePayloadOnlyBuilt(p: Payload)
    requires DecodePayload(p).Some?
    ensures p == MultiModalPayload(DecodePayload(p).value.message, DecodePayload(p).value.image)
  {
    var parts := p.contents[0].parts;
    assert p.contents == [Content(parts)];
    if |parts| == 1 {
      assert parts == [parts[0]] + [];
    } else {
      assert parts == [parts[0]] + [parts[1]];
    }
  }

  // ---------------------------------------------------------------------------
  // Response: {candidates: [{content: {parts: [{text}, ...]}}, ...]}
  // `None` stands for a field that is absent or null, and for a null element;
  // `ResponseJson` renders each absent field either way, field by field.

  datatype ResponsePart = ResponsePart(text: Option<string>)
  datatype ResponseContent = ResponseContent(parts: Option<seq<Option<ResponsePart>>>)
  datatype Candidate = Candidate(content: Option<ResponseContent>)
  datatype Response = Response(candidates: Option<seq<Option<Candidate>>>)

  /** What the POST resolves to: the body of a 2xx reply, or a rejection
      (network failure, timeout, non-2xx status). A body that is not JSON
      arrives as a string, on which `.candidates[0]` throws; such a body is not
      a typed `Response`, and its outcome is the same fixed error as a rejection. */
  datatype Reply = Received(data: Response) | RequestFailed

  /** `data.candidates[0]?.content`: indexing an absent `candidates` throws;
      an absent first candidate or content is undefined. */
  function FirstContent(d: Response): Js.Eval<Option<ResponseContent>> {
    match d.candidates
    case None => Js.TypeError
    case Some(cs) => Js.Done(if |cs| == 0 || cs[0].None? then None else cs[0].value.content)
  }

  /** `data.candidates[0]?.content?.parts[0]?.text` (text path). `parts[0]`
      is not optional: a content without parts throws. */
  function TextPathText(d: Response): Js.Eval<Option<string>> {
    match FirstContent(d)
    case TypeError => Js.TypeError
    case Done(None) => Js.Done(None)
    case Done(Some(c)) =>
      match c.parts
      case None => Js.TypeError
      case Some(ps) => Js.Done(if |ps| == 0 || ps[0].None? then None else ps[0].value.text)
  }

  /** `parts.find(part => part.text)`: the first part with truthy text; the
      callback throws on a null part it reaches. */
  function FindTextPart(ps: seq<Option<ResponsePart>>): Js.Eval<Option<ResponsePart>> {
    if ps == [] then Js.Done(None)
    else match ps[0]
      case None => Js.TypeError
      case Some(p) => if Truthy(p.text) then Js.Done(Some(p)) else FindTextPart(ps[1..])
  }

  /** `data.candidates[0]?.content?.parts.find(part => part.text)?.text`
      (multimodal path). `.find` is not optional: a content without parts throws. */
  function MultiModalPathText(d: Response): Js.Eval<Option<string>> {
    match FirstContent(d)
    case TypeError => Js.TypeError
    case Done(None) => Js.Done(None)
    case Done(Some(c)) =>
      match c.parts
      case None => Js.TypeError
      case Some(ps) =>
        match FindTextPart(ps)
        case TypeError => Js.TypeError
        case Done(found) => Js.Done(if found.Some? then found.value.text else None)
  }

  /** The result of `chatWithGemini` for a given reply: the response text or
      the fallback, or the one fixed error when the request or the extraction
      throws. */
  function TextReply(reply: Reply): (r: Result<string>)
    ensures r.Err? <==> reply.RequestFailed? || TextPathText(reply.data).TypeError?
    ensures r.Err? ==> r.message == TEXT_ERROR
    ensures r.Ok? ==> r.value != ""
    ensures r.Ok? ==> (r.value != FALLBACK ==> TextPathText(reply.data) == Js.Done(Some(r.value)))
  {
    if reply.RequestFailed? then Err(TEXT_ERROR)
    else match TextPathText(reply.data)
      case TypeError => Err(TEXT_ERROR)
      case Done(t) => Ok(OrElse(t, FALLBACK))
  }

  /** The result of `chatWithGeminiMultiModal` for a given reply. */
  function MultiModalReply(reply: Reply): (r: Result<string>)
    ensures r.Err? <==> reply.RequestFailed? || MultiModalPathText(reply.data).TypeError?
    ensures r.Err? ==> r.message == MULTI_MODAL_ERROR
    ensures r.Ok? ==> r.value != ""
    ensures r.Ok? ==> (r.value != FALLBACK ==> MultiModalPathText(reply.data) == Js.Done(Some(r.value)))
  {
    if reply.RequestFailed? then Err(MULTI_MODAL_ERROR)
    else match MultiModalPathText(reply.data)
      case TypeError => Err(MULTI_MODAL_ERROR)
      case Done(t) => Ok(OrElse(t, FALLBACK))
  }

  // ---------------------------------------------------------------------------
  // The two operations. Each answers from the reply to one POST of its payload
  // to its URL.

  method ChatWithGemini(userMessage: string, post: (string, Payload) -> Reply) returns (r: Result<string>)
    ensures r == TextReply(post(RequestUrl(API_URL, API_KEY), TextPayload(userMessage)))
    ensures r.Err? ==> r.message == TEXT_ERROR
    ensures r.Ok? ==> r.value != ""
  {
    var reply := post(RequestUrl(API_URL, API_KEY), Payload([Content([Text(userMessage)])]));
    if reply.RequestFailed? {
      return Err(TEXT_ERROR);
    }
    var text := TextPathText(reply.data);
    if text.TypeError? {
      return Err(TEXT_ERROR);
    }
    r := Ok(OrElse(text.value, FALLBACK));
  }

  method ChatWithGeminiMultiModal(message: string, encodedImage: Option<string>, post: (string, Payload) -> Reply)
    returns (r: Result<string>)
    ensures r == MultiModalReply(post(RequestUrl(API_URL_MULTI_MODAL, API_KEY), MultiModalPayload(message, encodedImage)))
    ensures r.Err? ==> r.message == MULTI_MODAL_ERROR
    ensures r.Ok? ==> r.value != ""
  {
    var parts := [Text(message)];
    if Truthy(encodedImage) {
      parts := parts + [Inline(JPEG_MIME_TYPE, encodedImage.value)];
    } else {
      assert parts == [Text(message)] + [];
    }
    var reply := post(RequestUrl(API_URL_MULTI_MODAL, API_KEY), Payload([Content(parts)]));
    if reply.RequestFailed? {
      return Err(MULTI_MODAL_ERROR);
    }
    var text := MultiModalPathText(reply.data);
    if text.TypeError? {
      return Err(MULTI_MODAL_ERROR);
    }
    r := Ok(OrElse(text.value, FALLBACK));
  }

  // ---------------------------------------------------------------------------
  // What the reducers do, case by case

  /** A well-formed reply whose first candidate has the given parts, followed
      by any other candidates. */
  function Answer(ps: seq<Option<ResponsePart>>, others: seq<Option<Candidate>>): Response {
    Response(Some([Some(Candidate(Some(ResponseContent(Some(ps)))))] + others))
  }

  /** The text path reads `parts[0]` only: whatever follows it, the answer is
      its text when non-empty, the fallback otherwise. */
  lemma TextReplyReadsFirstPartOnly(p: ResponsePart, rest: seq<Option<ResponsePart>>, others: seq<Option<Candidate>>)
    ensures TextReply(Received(Answer([Some(p)] + rest, others))) == Ok(if Truthy(p.text) then p.text.value else FALLBACK)
    ensures p.text == Some("") ==> TextReply(Received(Answer([Some(p)] + rest, others))) == Ok(FALLBACK)
  {
  }

  /** The links of the text path that are optional resolve to the fallback;
      the ones that are not throw. */
  lemma TextReplyMissingFields(c: ResponseContent, others: seq<Option<Candidate>>, rest: seq<Option<ResponsePart>>)
    ensures TextReply(Received(Response(None))) == Err(TEXT_ERROR)
    ensures TextReply(Received(Response(Some([])))) == Ok(FALLBACK)
    ensures TextReply(Received(Response(Some([None] + others)))) == Ok(FALLBACK)
    ensures TextReply(Received(Response(Some([Some(Candidate(None))] + others)))) == Ok(FALLBACK)
    ensures TextReply(Received(Response(Some([Some(Candidate(Some(ResponseContent(None))))] + others)))) == Err(TEXT_ERROR)
    ensures TextReply(Received(Answer([], others))) == Ok(FALLBACK)
    ensures TextReply(Received(Answer([None] + rest, others))) == Ok(FALLBACK)
    ensures TextReply(RequestFailed) == Err(TEXT_ERROR)
  {
  }

  /** Index `i` holds the first part with truthy text, and every part before
      it is present. */
  ghost predicate FirstTextAt(ps: seq<Option<ResponsePart>>, i: int) {
    && 0 <= i < |ps|
    && ps[i].Some? && Truthy(ps[i].value.text)
    && forall j :: 0 <= j < i ==> ps[j].Some? && !Truthy(ps[j].value.text)
  }

  /** Every part is present and none has truthy text. */
  ghost predicate NoTextPart(ps: seq<Option<ResponsePart>>) {
    forall j :: 0 <= j < |ps| ==> ps[j].Some? && !Truthy(ps[j].value.text)
  }

  /** Index `i` holds a null part that `find` reaches. */
  ghost predicate NullBeforeText(ps: seq<Option<ResponsePart>>, i: int) {
    && 0 <= i < |ps|
    && ps[i].None?
    && forall j :: 0 <= j < i ==> ps[j].Some? && !Truthy(ps[j].value.text)
  }

  lemma {:induction false} FindTextPartFirst(ps: seq<Option<ResponsePart>>, i: int)
    requires FirstTextAt(ps, i)
    ensures FindTextPart(ps) == Js.Done(ps[i])
  {
    if i > 0 {
      assert FirstTextAt(ps[1..], i - 1) by {
        forall j | 0 <= j < i - 1
          ensures ps[1..][j].Some? && !Truthy(ps[1..][j].value.text)
        {
          assert ps[1..][j] == ps[j + 1];
        }
      }
      FindTextPartFirst(ps[1..], i - 1);
    }
  }

  lemma {:induction false} FindTextPartNone(ps: seq<Option<ResponsePart>>)
    requires NoTextPart(ps)
    ensures FindTextPart(ps) == Js.Done(None)
  {
    if ps != [] {
      assert NoTextPart(ps[1..]) by {
        forall j | 0 <= j < |ps| - 1
          ensures ps[1..][j].Some? && !Truthy(ps[1..][j].value.text)
        {
          assert ps[1..][j] == ps[j + 1];
        }
      }
      FindTextPartNone(ps[1..]);
    }
  }

  lemma {:induction false} FindTextPartThrows(ps: seq<Option<ResponsePart>>, i: int)
    requires NullBeforeText(ps, i)
    ensures FindTextPart(ps) == Js.TypeError
  {
    if i > 0 {
      assert NullBeforeText(ps[1..], i - 1) by {
        forall j | 0 <= j < i - 1
          ensures ps[1..][j].Some? && !Truthy(ps[1..][j].value.text)
        {
          assert ps[1..][j] == ps[j + 1];
        }
      }
      FindTextPartThrows(ps[1..], i - 1);
    }
  }

  /** Every list of parts falls in exactly one of the three cases above. */
  lemma {:induction false} FindTextPartCases(ps: seq<Option<ResponsePart>>)
    ensures NoTextPart(ps) || (exists i :: FirstTextAt(ps, i)) || (exists i :: NullBeforeText(ps, i))
  {
    if ps != [] {
      if ps[0].None? {
        assert NullBeforeText(ps, 0);
      } else if Truthy(ps[0].value.text) {
        assert FirstTextAt(ps, 0);
      } else {
        FindTextPartCases(ps[1..]);
        if NoTextPart(ps[1..]) {
          assert NoTextPart(ps) by {
            forall j | 0 <= j < |ps| ensures ps[j].Some? && !Truthy(ps[j].value.text) {
              if j > 0 { assert ps[j] == ps[1..][j - 1]; }
            }
          }
        } else if i :| FirstTextAt(ps[1..], i) {
          assert FirstTextAt(ps, i + 1) by {
            forall j | 0 <= j < i + 1 ensures ps[j].Some? && !Truthy(ps[j].value.text) {
              if j > 0 { assert ps[j] == ps[1..][j - 1]; }
            }
          }
        } else {
          var i :| NullBeforeText(ps[1..], i);
          assert NullBeforeText(ps, i + 1) by {
            forall j | 0 <= j < i + 1 ensures ps[j].Some? && !Truthy(ps[j].value.text) {
              if j > 0 { assert ps[j] == ps[1..][j - 1]; }
            }
          }
        }
      }
    }
  }

  /** The multimodal path answers with the text of the first part that has
      any, wherever it stands. */
  lemma MultiModalReplyFirstTextPart(ps: seq<Option<ResponsePart>>, others: seq<Option<Candidate>>, i: int)
    requires FirstTextAt(ps, i)
    ensures MultiModalReply(Received(Answer(ps, others))) == Ok(ps[i].value.text.value)
  {
    FindTextPartFirst(ps, i);
  }

  /** With no part carrying text, the multimodal path answers with the fallback. */
  lemma MultiModalReplyNoText(ps: seq<Option<ResponsePart>>, others: seq<Option<Candidate>>)
    requires NoTextPart(ps)
    ensures MultiModalReply(Received(Answer(ps, others))) == Ok(FALLBACK)
  {
    FindTextPartNone(ps);
  }

  /** A null part reached by `find` makes the multimodal path fail. */
  lemma MultiModalReplyNullPart(ps: seq<Option<ResponsePart>>, others: seq<Option<Candidate>>, i: int)
    requires NullBeforeText(ps, i)
    ensures MultiModalReply(Received(Answer(ps, others))) == Err(MULTI_MODAL_ERROR)
  {
    FindTextPartThrows(ps, i);
  }

  lemma MultiModalReplyMissingFields(others: seq<Option<Candidate>>)
    ensures MultiModalReply(Received(Response(None))) == Err(MULTI_MODAL_ERROR)
    ensures MultiModalReply(Received(Response(Some([])))) == Ok(FALLBACK)
    ensures MultiModalReply(Received(Response(Some([None] + others)))) == Ok(FALLBACK)
    ensures MultiModalReply(Received(Response(Some([Some(Candidate(None))] + others)))) == Ok(FALLBACK)
    ensures MultiModalReply(Received(Response(Some([Some(Candidate(Some(ResponseContent(None))))] + others)))) == Err(MULTI_MODAL_ERROR)
    ensures MultiModalReply(RequestFailed) == Err(MULTI_MODAL_ERROR)
  {
  }

  /** An image part followed by a text part: the multimodal path finds the
      text, the text path sees only the image part and falls back. */
  lemma ImageThenTextPart(others: seq<Option<Candidate>>)
    ensures MultiModalReply(Received(Answer([Some(ResponsePart(None)), Some(ResponsePart(Some("hello")))], others))) == Ok("hello")
    ensures TextReply(Received(Answer([Some(ResponsePart(None)), Some(ResponsePart(Some("hello")))], others))) == Ok(FALLBACK)
  {
  }

  // ---------------------------------------------------------------------------
  // Agreement with JavaScript's evaluation of the source expressions

  // A typed response stands for a JSON body in which each `None` field is
  // either a missing key or an explicit `null`, chosen field by field: `nulls`
  // says, for the path of each absent field (`candidates`, `candidates[i].content`,
  // ..., `...parts[j].text`), whether it is written as `null`. A `None` element
  // of an array is always `null`. The agreement lemmas hold for every choice.

  /** Which absent fields, named by their path from the body, are written as `null`. */
  type NullChoice = seq<Js.Key> -> bool

  /** The object fields standing for the absent field `name` of the object at `at`. */
  function Absent(name: string, nulls: NullChoice, at: seq<Js.Key>): map<string, Js.Value> {
    if nulls(at + [Js.Name(name)]) then map[name := Js.Null] else map[]
  }

  /** What reading an absent field gives: `null` or undefined. */
  function Missing(isNull: bool): (v: Js.Value)
    ensures Js.Nullish(v)
  {
    if isNull then Js.Null else Js.Undefined
  }

  function PartJson(p: Option<ResponsePart>, nulls: NullChoice, at: seq<Js.Key>): Js.Value {
    match p
    case None => Js.Null
    case Some(ResponsePart(t)) => Js.Obj(if t.Some? then map["text" := Js.Str(t.value)] else Absent("text", nulls, at))
  }

  /** The parts, the first of them at index `from` of the array at `at`. */
  function PartsJson(ps: seq<Option<ResponsePart>>, nulls: NullChoice, at: seq<Js.Key>, from: nat): (r: seq<Js.Value>)
    ensures |r| == |ps|
  {
    if ps == [] then [] else [PartJson(ps[0], nulls, at + [Js.Index(from)])] + PartsJson(ps[1..], nulls, at, from + 1)
  }

  function ContentJson(c: ResponseContent, nulls: NullChoice, at: seq<Js.Key>): Js.Value {
    Js.Obj(
      if c.parts.Some? then map["parts" := Js.Arr(PartsJson(c.parts.value, nulls, at + [Js.Name("parts")], 0))]
      else Absent("parts", nulls, at))
  }

  function CandidateJson(c: Option<Candidate>, nulls: NullChoice, at: seq<Js.Key>): Js.Value {
    match c
    case None => Js.Null
    case Some(Candidate(content)) =>
      Js.Obj(
        if content.Some? then map["content" := ContentJson(content.value, nulls, at + [Js.Name("content")])]
        else Absent("content", nulls, at))
  }

  /** The candidates, the first of them at index `from` of the array at `at`. */
  function CandidatesJson(cs: seq<Option<Candidate>>, nulls: NullChoice, at: seq<Js.Key>, from: nat): (r: seq<Js.Value>)
    ensures |r| == |cs|
    ensures |cs| > 0 ==> r[0] == CandidateJson(cs[0], nulls, at + [Js.Index(from)])
  {
    if cs == [] then [] else [CandidateJson(cs[0], nulls, at + [Js.Index(from)])] + CandidatesJson(cs[1..], nulls, at, from + 1)
  }

  /** The JSON body a typed response stands for. */
  function ResponseJson(d: Response, nulls: NullChoice): Js.Value {
    Js.Obj(
      if d.candidates.Some? then map["candidates" := Js.Arr(CandidatesJson(d.candidates.value, nulls, [Js.Name("candidates")], 0))]
      else Absent("candidates", nulls, []))
  }

  /** `data.candidates[0]?.content?.parts`, the prefix both reply expressions share. */
  const PARTS_CHAIN: seq<Js.Step> := [
    Js.Member(Js.Name("candidates"), false), Js.Member(Js.Index(0), false),
    Js.Member(Js.Name("content"), true), Js.Member(Js.Name("parts"), true)]

  /** `response.data.candidates[0]?.content?.parts[0]?.text` */
  const TEXT_CHAIN: seq<Js.Step> := PARTS_CHAIN + [Js.Member(Js.Index(0), false), Js.Member(Js.Name("text"), true)]

  /** `responseData.candidates[0]?.content?.parts.find(part => part.text)?.text` */
  const MULTI_MODAL_CHAIN: seq<Js.Step> := PARTS_CHAIN + [Js.FindBy("text"), Js.Member(Js.Name("text"), true)]

  /** The try/catch around `chain || FALLBACK` evaluated on an untyped body. */
  function JsReply(body: Js.Value, chain: seq<Js.Step>, error: string): Result<Js.Value> {
    match Js.Chain(body, chain)
    case TypeError => Err(error)
    case Done(v) => Ok(Js.Or(v, Js.Str(FALLBACK)))
  }

  function Lift(r: Result<string>): Result<Js.Value> {
    match r
    case Ok(s) => Ok(Js.Str(s))
    case Err(e) => Err(e)
  }

  /** The typed `find` and JavaScript's agree: both throw, both find nothing,
      or JavaScript finds an element whose `text` is the typed part's text. */
  lemma {:induction false} FindAgrees(ps: seq<Option<ResponsePart>>, nulls: NullChoice, at: seq<Js.Key>, from: nat)
    ensures var r := Js.Find(PartsJson(ps, nulls, at, from), "text");
      match FindTextPart(ps)
      case TypeError => r == Js.TypeError
      case Done(None) => r == Js.Done(Js.Undefined)
      case Done(Some(p)) => p.text.Some? && r.Done? && Js.Get(r.value, Js.Name("text")) == Js.Done(Js.Str(p.text.value))
  {
    if ps != [] {
      assert PartsJson(ps, nulls, at, from)[1..] == PartsJson(ps[1..], nulls, at, from + 1);
      FindAgrees(ps[1..], nulls, at, from + 1);
    }
  }

  /** The choice is made field by field: of two parts without text, the first
      can be `{text: null}` while the second is `{}`. */
  lemma NullChoicePerField()
    ensures PartsJson([Some(ResponsePart(None)), Some(ResponsePart(None))], p => p == [Js.Index(0), Js.Name("text")], [], 0)
      == [Js.Obj(map["text" := Js.Null]), Js.Obj(map[])]
  {
    assert [] + [Js.Index(0)] + [Js.Name("text")] == [Js.Index(0), Js.Name("text")];
    var second: seq<Js.Key> := [] + [Js.Index(1)] + [Js.Name("text")];
    assert second[0] == Js.Index(1);
  }

  /** The path of the first candidate's `content`. */
  const CONTENT_PATH: seq<Js.Key> := [Js.Name("candidates"), Js.Index(0), Js.Name("content")]

  /** The JSON value `content.parts` reads as, for the content at `at`. */
  function PartsValue(c: ResponseContent, nulls: NullChoice, at: seq<Js.Key>): Js.Value {
    if c.parts.Some? then Js.Arr(PartsJson(c.parts.value, nulls, at + [Js.Name("parts")], 0))
    else Missing(nulls(at + [Js.Name("parts")]))
  }

  /** The shared prefix throws without `candidates`, ends the chain with
      undefined when the first candidate or its content is absent, and
      otherwise hands the parts to the rest of the chain. */
  lemma PartsChainAgrees(d: Response, nulls: NullChoice, rest: seq<Js.Step>)
    ensures Js.Chain(ResponseJson(d, nulls), PARTS_CHAIN + rest) ==
      match FirstContent(d)
      case TypeError => Js.TypeError
      case Done(None) => Js.Done(Js.Undefined)
      case Done(Some(c)) => Js.Chain(PartsValue(c, nulls, CONTENT_PATH), rest)
  {
    var steps := PARTS_CHAIN + rest;
    assert steps[1..][1..][1..][1..] == rest;
    var body := ResponseJson(d, nulls);
    assert [Js.Name("candidates")] + [Js.Index(0)] + [Js.Name("content")] == CONTENT_PATH;
    if d.candidates.Some? {
      var cs := d.candidates.value;
      var first := if |cs| == 0 then Js.Undefined else CandidateJson(cs[0], nulls, [Js.Name("candidates")] + [Js.Index(0)]);
      assert Js.Chain(body, steps) == Js.Chain(Js.Arr(CandidatesJson(cs, nulls, [Js.Name("candidates")], 0)), steps[1..]);
      assert Js.Chain(body, steps) == Js.Chain(first, steps[1..][1..]);
      if |cs| > 0 && cs[0].Some? && cs[0].value.content.Some? {
        var c := cs[0].value.content.value;
        assert Js.Chain(body, steps) == Js.Chain(ContentJson(c, nulls, CONTENT_PATH), steps[1..][1..][1..]);
        assert Js.Chain(body, steps) == Js.Chain(PartsValue(c, nulls, CONTENT_PATH), rest);
      } else if |cs| > 0 && cs[0].Some? {
        assert Js.Chain(body, steps) == Js.Chain(Missing(nulls(CONTENT_PATH)), steps[1..][1..][1..]);
      }
    } else {
      assert Js.Chain(body, steps) == Js.Chain(Missing(nulls([Js.Name("candidates")])), steps[1..]);
    }
  }

  /** The typed text reducer is JavaScript's evaluation of the expression at
      src/services/ChatService.js:31 on the body the response stands for. */
  lemma TextReplyAgreesWithJs(d: Response, nulls: NullChoice)
    ensures JsReply(ResponseJson(d, nulls), TEXT_CHAIN, TEXT_ERROR) == Lift(TextReply(Received(d)))
  {
    var rest := [Js.Member(Js.Index(0), false), Js.Member(Js.Name("text"), true)];
    PartsChainAgrees(d, nulls, rest);
  }

  /** The typed multimodal reducer is JavaScript's evaluation of the expression
      at src/services/ChatService.js:63 on the body the response stands for. */
  lemma MultiModalReplyAgreesWithJs(d: Response, nulls: NullChoice)
    ensures JsReply(ResponseJson(d, nulls), MULTI_MODAL_CHAIN, MULTI_MODAL_ERROR) == Lift(MultiModalReply(Received(d)))
  {
    var rest := [Js.FindBy("text"), Js.Member(Js.Name("text"), true)];
    PartsChainAgrees(d, nulls, rest);
    var c := FirstContent(d);
    if c.Done? && c.value.Some? && c.value.value.parts.Some? {
      FindAgrees(c.value.value.parts.value, nulls, CONTENT_PATH + [Js.Name("parts")], 0);
    }
  }

  // ---------------------------------------------------------------------------
  // Bodies the typed Response does not represent

  /** A body that is not JSON arrives as a string: `.candidates` reads as
      undefined, `[0]` on it throws, and both paths give their fixed error. */
  lemma StringBodyFails(body: string)
    ensures JsReply(Js.Str(body), TEXT_CHAIN, TEXT_ERROR) == Err(TEXT_ERROR)
    ensures JsReply(Js.Str(body), MULTI_MODAL_CHAIN, MULTI_MODAL_ERROR) == Err(MULTI_MODAL_ERROR)
  {
    forall chain: seq<Js.Step> | chain == TEXT_CHAIN || chain == MULTI_MODAL_CHAIN
      ensures Js.Chain(Js.Str(body), chain) == Js.TypeError
    {
      assert chain[0] == Js.Member(Js.Name("candidates"), false);
      assert chain[1..][0] == Js.Member(Js.Index(0), false);
      assert Js.Chain(Js.Undefined, chain[1..]) == Js.TypeError;
    }
  }

  /** A first candidate whose `parts` is an object: `parts[0]` reads as
      undefined, so the text path falls back, while `parts.find` is not a
      function, so the multimodal path fails. */
  lemma ObjectPartsSplitThePaths()
    ensures var body := Js.Obj(map["candidates" := Js.Arr([Js.Obj(map["content" := Js.Obj(map["parts" := Js.Obj(map[])])])])]);
      && JsReply(body, TEXT_CHAIN, TEXT_ERROR) == Ok(Js.Str(FALLBACK))
      && JsReply(body, MULTI_MODAL_CHAIN, MULTI_MODAL_ERROR) == Err(MULTI_MODAL_ERROR)
  {
    var parts := Js.Obj(map[]);
    var content := Js.Obj(map["parts" := parts]);
    var candidate := Js.Obj(map["content" := content]);
    var body := Js.Obj(map["candidates" := Js.Arr([candidate])]);
    var text := [Js.Member(Js.Index(0), false), Js.Member(Js.Name("text"), true)];
    var multi := [Js.FindBy("text"), Js.Member(Js.Name("text"), true)];
    forall rest: seq<Js.Step> | rest == text || rest == multi
      ensures Js.Chain(body, PARTS_CHAIN + rest) == Js.Chain(parts, rest)
    {
      var steps := PARTS_CHAIN + rest;
      assert steps[1..][1..][1..][1..] == rest;
      assert Js.Chain(content, steps[1..][1..][1..]) == Js.Chain(parts, rest);
      assert Js.Chain(candidate, steps[1..][1..]) == Js.Chain(parts, rest);
      assert Js.Chain(Js.Arr([candidate]), steps[1..]) == Js.Chain(parts, rest);
    }
    assert Js.Chain(parts, text) == Js.Done(Js.Undefined) by {
      assert Js.Chain(Js.Undefined, text[1..]) == Js.Done(Js.Undefined);
    }
    assert Js.Chain(parts, multi) == Js.TypeError;
  }
}
