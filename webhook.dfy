/**
 * The client of the four automation webhooks behind the newsletter screen
 * (services/webhookService.ts): fetching and saving the newsletter variables,
 * testing keywords, and sending a comment on a generated newsletter, together
 * with the extraction of the newsletter text from a reply.
 *
 * An HTTP exchange is a parameter: either no response (the request was
 * rejected) or a status with the reply parsed as JSON (None when the body is
 * not JSON). Each operation returns the JSON body it sends and its outcome.
 */
module Webhook {
  import opened Wrappers
  import opened JsText
  import opened Json
  import opened ImageToken
  import opened DataImage

  /** A writing tone the workflow offers. */
  datatype ToneOption = ToneOption(id: int, description: string)

  /** The settings that drive newsletter generation, with the latest generated text. */
  datatype NewsletterVariables = NewsletterVariables(
    selectedToneId: int,
    maxLines: int,
    includeImage: bool,
    keywords: string,
    verification: string)

  /** What a fetch yields: the variables and the tones to choose from. */
  datatype Fetched = Fetched(variables: NewsletterVariables, toneOptions: seq<ToneOption>)

  /** Why an operation fails. */
  datatype Failure =
    | NetworkError           // the request itself was rejected
    | HttpError(status: int) // a status outside 200..299
    | NotJson                // the reply body does not parse as JSON
    | InvalidFormat          // no usable content in the reply
    | NotAString             // the extracted text is a truthy non-string: `.replace` throws
    | Mistyped(field: string)// a fetched field holds a value of the wrong JSON type
    | SendFailed             // sendComment reports any failure as 'Failed to send comment'

  /** One request/response round trip. */
  datatype Exchange = NoResponse | Reply(status: int, body: Option<Json>)

  /** `response.ok`. */
  predicate IsOk(status: int) {
    200 <= status <= 299
  }

  // ---------------------------------------------------------------------------
  // Fetching the variables
  // ---------------------------------------------------------------------------

  /** The variables before anything is stored: what the decoder yields for fields that are all absent. */
  const DefaultVariables := NewsletterVariables(-1, 10, true, "", "")

  function DecodeTone(item: Json): Result<ToneOption, Failure> {
    var id := Member(Some(item), "id");
    var description := Member(Some(item), "description");
    if id.Some? && id.value.JNumber? && description.Some? && description.value.JString? then
      Success(ToneOption(id.value.n, description.value.s))
    else
      Failure(Mistyped("list_ton"))
  }

  function DecodeTones(items: seq<Json>): (r: Result<seq<ToneOption>, Failure>)
    ensures r.Success? ==> |r.value| == |items|
    ensures r.Failure? ==> r.error == Mistyped("list_ton")
  {
    if items == [] then Success([])
    else match DecodeTone(items[0])
      case Failure(e) => Failure(e)
      case Success(t) =>
        match DecodeTones(items[1..])
        case Failure(e) => Failure(e)
        case Success(ts) => Success([t] + ts)
  }

  /**
   * The record built from `data[0]`: `??` defaults for ton (-1), n_lignes (10)
   * and image (true), `||` defaults for keywords (''), verification ('') and
   * list_ton ([]).
   */
  function DecodeWebhookData(w: Json): (r: Result<Fetched, Failure>)
    ensures r.Failure? ==> r.error.Mistyped?
  {
    var d := Some(w);
    var ton := Coalesce(Member(d, "ton"), JNumber(-1));
    var nLignes := Coalesce(Member(d, "n_lignes"), JNumber(10));
    var image := Coalesce(Member(d, "image"), JBool(true));
    var keywords := OrElse(Member(d, "keywords"), JString(""));
    var verification := OrElse(Member(d, "verification"), JString(""));
    var listTon := OrElse(Member(d, "list_ton"), JArray([]));
    if !ton.JNumber? then Failure(Mistyped("ton"))
    else if !nLignes.JNumber? then Failure(Mistyped("n_lignes"))
    else if !image.JBool? then Failure(Mistyped("image"))
    else if !keywords.JString? then Failure(Mistyped("keywords"))
    else if !verification.JString? then Failure(Mistyped("verification"))
    else if !listTon.JArray? then Failure(Mistyped("list_ton"))
    else match DecodeTones(listTon.items)
      case Failure(e) => Failure(e)
      case Success(tones) =>
        Success(Fetched(NewsletterVariables(ton.n, nLignes.n, image.b, keywords.s, verification.s), tones))
  }

  /** The whole reply of the fetch endpoint: `!data || !data[0]` is an invalid format. */
  function DecodeFetched(data: Json): Result<Fetched, Failure> {
    var first := Index0(data);
    if !Truthy(Some(data)) || !Truthy(first) then Failure(InvalidFormat)
    else DecodeWebhookData(first.value)
  }

  method FetchNewsletterVariables(exchange: Exchange) returns (r: Result<Fetched, Failure>)
    ensures exchange.NoResponse? ==> r == Failure(NetworkError)
    ensures exchange.Reply? && !IsOk(exchange.status) ==> r == Failure(HttpError(exchange.status))
    ensures exchange.Reply? && IsOk(exchange.status) && exchange.body.None? ==> r == Failure(NotJson)
    ensures exchange.Reply? && IsOk(exchange.status) && exchange.body.Some? ==>
      r == DecodeFetched(exchange.body.value)
  {
    if exchange.NoResponse? {
      return Failure(NetworkError);
    }
    if !IsOk(exchange.status) {
      return Failure(HttpError(exchange.status));
    }
    if exchange.body.None? {
      return Failure(NotJson);
    }
    var data := exchange.body.value;
    if !Truthy(Some(data)) || !Truthy(Index0(data)) {
      return Failure(InvalidFormat);
    }
    var webhookData := Index0(data).value;
    r := DecodeWebhookData(webhookData);
  }

  // ---------------------------------------------------------------------------
  // Saving the variables
  // ---------------------------------------------------------------------------

  /** The body of the save request: the variables under their wire names. */
  function SaveBody(v: NewsletterVariables): Json {
    JObject(map[
      "ton" := JNumber(v.selectedToneId),
      "n_lignes" := JNumber(v.maxLines),
      "image" := JBool(v.includeImage),
      "keywords" := JString(v.keywords),
      "verification" := JString(v.verification)])
  }

  /** Saving sends the variables; any 2xx status is success and the reply body is never read. */
  method UpdateNewsletterVariables(v: NewsletterVariables, exchange: Exchange)
    returns (request: Json, r: Result<bool, Failure>)
    ensures request == SaveBody(v)
    ensures exchange.NoResponse? ==> r == Failure(NetworkError)
    ensures exchange.Reply? && IsOk(exchange.status) ==> r == Success(true)
    ensures exchange.Reply? && !IsOk(exchange.status) ==> r == Failure(HttpError(exchange.status))
  {
    request := SaveBody(v);
    if exchange.NoResponse? {
      return request, Failure(NetworkError);
    }
    if !IsOk(exchange.status) {
      return request, Failure(HttpError(exchange.status));
    }
    r := Success(true);
  }

  // ---------------------------------------------------------------------------
  // Extracting the newsletter text from a reply
  // ---------------------------------------------------------------------------

  /** The operands of the `||` chain that picks the text, in the source's order. */
  function TextCandidates(data: Json): seq<Option<Json>> {
    match data
    case JArray(items) =>
      var first := if items == [] then None else Some(items[0]);
      [Path(first, ["response", "body", "post"]), Member(first, "post"), Member(first, "verification"),
       Path(first, ["response", "verification"]), Member(first, "body")]
    case JObject(_) =>
      var d := Some(data);
      [Member(d, "post"), Member(d, "verification"), Path(d, ["response", "body", "post"]),
       Path(d, ["response", "verification"]), Member(d, "body")]
    case _ => []
  }

  /** The operands of the `||` chain that picks the image; none for a payload that is neither array nor object. */
  function ImageCandidates(data: Json): seq<Option<Json>> {
    match data
    case JArray(items) =>
      var first := if items == [] then None else Some(items[0]);
      [Path(first, ["response", "body", "image"]), Member(first, "image"), Path(first, ["response", "image"])]
    case JObject(_) =>
      var d := Some(data);
      [Member(d, "image"), Path(d, ["response", "body", "image"]), Path(d, ["response", "image"])]
    case _ => []
  }

  /** The text before stripping: the first truthy candidate, else the empty string. */
  function ExtractedText(data: Json): Json {
    FirstTruthy(TextCandidates(data) + [Some(JString(""))]).value
  }

  /** The image value, undefined when there are no candidates. */
  function ExtractedImage(data: Json): Option<Json> {
    var c := ImageCandidates(data);
    if c == [] then None else FirstTruthy(c)
  }

  /** `image && image !== 'false'`. */
  predicate ShowsImage(image: Option<Json>) {
    Truthy(image) && image != Some(JString("false"))
  }

  /** The token appended for a shown image; its reference is the image value converted to a string. */
  function GeneratedImage(image: Json): Token {
    Token("Generated Image", ToJsString(image))
  }

  /** What is appended for a shown image: a blank line, then the generated token. */
  function ImageSuffix(image: Json): string {
    "\n\n" + Text(GeneratedImage(image))
  }

  /** What processResponseContent returns for a reply, or the exception it throws. */
  function ResponseContent(data: Json): Result<string, Failure> {
    var text := ExtractedText(data);
    if !text.JString? then Failure(NotAString)
    else
      var stripped := Trim(StripTokens(text.s));
      var image := ExtractedImage(data);
      if ShowsImage(image) then Success(stripped + ImageSuffix(image.value))
      else Success(stripped)
  }

  /** The text processResponseContent appends is one image token after a blank line. */
  lemma SuffixIsToken(ref: string)
    ensures "\n\n![Generated Image](" + ref + ")" == "\n\n" + Text(Token("Generated Image", ref))
  {
    assert "\n\n![Generated Image](" == "\n\n" + "![" + "Generated Image" + "](";
  }

  method ProcessResponseContent(data: Json) returns (r: Result<string, Failure>)
    ensures r == ResponseContent(data)
  {
    var text := JString("");
    var image: Option<Json> := None;
    if data.JArray? || data.JObject? {
      text := FirstTruthy(TextCandidates(data) + [Some(JString(""))]).value;
      image := FirstTruthy(ImageCandidates(data));
    }
    if !text.JString? {
      return Failure(NotAString);
    }
    var s := Trim(StripTokens(text.s));
    if Truthy(image) && image != Some(JString("false")) {
      var suffix := "\n\n![Generated Image](" + ToJsString(image.value) + ")";
      SuffixIsToken(ToJsString(image.value));
      s := s + suffix;
    }
    r := Success(s);
  }

  // ---------------------------------------------------------------------------
  // Testing keywords and sending a comment
  // ---------------------------------------------------------------------------

  /**
   * The reply handling shared by testKeywords and sendComment: the status is
   * checked before the body is read, then the text is extracted, and an empty
   * text is an invalid format.
   */
  function NewsletterReply(exchange: Exchange): (r: Result<string, Failure>)
    ensures exchange.NoResponse? ==> r == Failure(NetworkError)
    ensures exchange.Reply? && !IsOk(exchange.status) ==> r == Failure(HttpError(exchange.status))
    ensures exchange.Reply? && IsOk(exchange.status) && exchange.body.None? ==> r == Failure(NotJson)
    ensures exchange.Reply? && IsOk(exchange.status) && exchange.body.Some? ==>
      var content := ResponseContent(exchange.body.value);
      (content.Failure? ==> r == Failure(content.error)) &&
      (content == Success("") ==> r == Failure(InvalidFormat)) &&
      (content.Success? && content.value != "" ==> r == Success(content.value))
    ensures r.Success? ==>
      exchange.Reply? && IsOk(exchange.status) && exchange.body.Some? &&
      ResponseContent(exchange.body.value) == Success(r.value) && r.value != ""
  {
    match exchange
    case NoResponse => Failure(NetworkError)
    case Reply(status, body) =>
      if !IsOk(status) then Failure(HttpError(status))
      else if body.None? then Failure(NotJson)
      else match ResponseContent(body.value)
        case Failure(e) => Failure(e)
        case Success(text) => if text == "" then Failure(InvalidFormat) else Success(text)
  }

  method ReadNewsletter(exchange: Exchange) returns (r: Result<string, Failure>)
    ensures r == NewsletterReply(exchange)
  {
    if exchange.NoResponse? {
      return Failure(NetworkError);
    }
    if !IsOk(exchange.status) {
      return Failure(HttpError(exchange.status));
    }
    if exchange.body.None? {
      return Failure(NotJson);
    }
    var text := ProcessResponseContent(exchange.body.value);
    if text.Failure? {
      return text;
    }
    if text.value == "" {
      return Failure(InvalidFormat);
    }
    r := text;
  }

  /** The body of the keyword test request. */
  function KeywordsBody(keywords: string): Json {
    JObject(map["keywords" := JString(keywords)])
  }

  method TestKeywords(keywords: string, exchange: Exchange) returns (request: Json, r: Result<string, Failure>)
    ensures request == KeywordsBody(keywords)
    ensures r == NewsletterReply(exchange)
  {
    request := KeywordsBody(keywords);
    r := ReadNewsletter(exchange);
  }

  /** The body of the comment request: the comment, the text it is about, and the variables other than that text. */
  function CommentBody(comment: string, text: string, v: NewsletterVariables): Json {
    JObject(map[
      "comment" := JString(comment),
      "verification" := JString(text),
      "ton" := JNumber(v.selectedToneId),
      "n_lignes" := JNumber(v.maxLines),
      "image" := JBool(v.includeImage),
      "keywords" := JString(v.keywords)])
  }

  /** The text a comment is about: the inline-image pattern removed as the code writes it, then trimmed. */
  function CommentText(verification: string): string {
    Trim(StripDataImagesAsWritten(verification))
  }

  /**
   * Sending a comment: the reply is read like a keyword test's, but every
   * failure reaches the caller as the one error 'Failed to send comment'.
   */
  method SendComment(comment: string, verification: string, variables: NewsletterVariables, exchange: Exchange)
    returns (request: Json, r: Result<string, Failure>)
    ensures request == CommentBody(comment, CommentText(verification), variables)
    ensures r.Success? <==> NewsletterReply(exchange).Success?
    ensures r.Success? ==> r == NewsletterReply(exchange)
    ensures r.Failure? ==> r.error == SendFailed
  {
    var textContent := Trim(StripDataImagesAsWritten(verification));
    request := CommentBody(comment, textContent, variables);
    var reply := ReadNewsletter(exchange);
    if reply.Failure? {
      return request, Failure(SendFailed);
    }
    r := reply;
  }
}
