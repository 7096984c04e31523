/**
 * What the webhook client promises about the records it decodes and sends
 * and about the text it extracts from a reply.
 */
module WebhookProperties {
  import opened Wrappers
  import opened JsText
  import opened Json
  import opened ImageToken
  import opened DataImage
  import opened Webhook

  // ---------------------------------------------------------------------------
  // Fetch and save
  // ---------------------------------------------------------------------------

  /** What was saved is what a fetch of that record yields, with no tone list. */
  lemma SavedVariablesFetchBack(v: NewsletterVariables)
    ensures DecodeFetched(JArray([SaveBody(v)])) == Success(Fetched(v, []))
  {
    var d := Some(SaveBody(v));
    assert Member(d, "ton") == Some(JNumber(v.selectedToneId));
    assert Member(d, "n_lignes") == Some(JNumber(v.maxLines));
    assert Member(d, "image") == Some(JBool(v.includeImage));
    assert Member(d, "keywords") == Some(JString(v.keywords));
    assert Member(d, "verification") == Some(JString(v.verification));
    assert Member(d, "list_ton") == None;
  }

  /**
   * The comment request carries the variables: read back as a fetched record
   * it yields the variables with the commented text in place of theirs.
   */
  lemma CommentCarriesVariables(comment: string, text: string, v: NewsletterVariables)
    ensures DecodeWebhookData(CommentBody(comment, text, v)) == Success(Fetched(v.(verification := text), []))
  {
    var d := Some(CommentBody(comment, text, v));
    assert Member(d, "ton") == Some(JNumber(v.selectedToneId));
    assert Member(d, "n_lignes") == Some(JNumber(v.maxLines));
    assert Member(d, "image") == Some(JBool(v.includeImage));
    assert Member(d, "keywords") == Some(JString(v.keywords));
    assert Member(d, "verification") == Some(JString(text));
    assert Member(d, "list_ton") == None;
  }

  /**
   * The defaults rule: `??` replaces only a missing or null ton, n_lignes or
   * image and keeps 0 and false; `||` turns any falsy keywords, verification or
   * list_ton into its empty default.
   */
  lemma DefaultsRule(w: Json)
    requires DecodeWebhookData(w).Success?
    ensures IsNullish(Member(Some(w), "ton")) ==> DecodeWebhookData(w).value.variables.selectedToneId == -1
    ensures IsNullish(Member(Some(w), "n_lignes")) ==> DecodeWebhookData(w).value.variables.maxLines == 10
    ensures IsNullish(Member(Some(w), "image")) ==> DecodeWebhookData(w).value.variables.includeImage
    ensures Member(Some(w), "ton") == Some(JNumber(0)) ==> DecodeWebhookData(w).value.variables.selectedToneId == 0
    ensures Member(Some(w), "image") == Some(JBool(false)) ==> !DecodeWebhookData(w).value.variables.includeImage
    ensures !Truthy(Member(Some(w), "keywords")) ==> DecodeWebhookData(w).value.variables.keywords == ""
    ensures !Truthy(Member(Some(w), "verification")) ==> DecodeWebhookData(w).value.variables.verification == ""
    ensures !Truthy(Member(Some(w), "list_ton")) ==> DecodeWebhookData(w).value.toneOptions == []
  {
  }

  /** A fetch is an invalid format exactly when the reply or its first element is falsy. */
  lemma InvalidFormatExactly(data: Json)
    ensures DecodeFetched(data) == Failure(InvalidFormat) <==> !Truthy(Some(data)) || !Truthy(Index0(data))
  {
  }

  /** Only the first element of an array reply is read. */
  lemma FetchReadsFirstElementOnly(items: seq<Json>)
    requires |items| >= 1
    ensures DecodeFetched(JArray(items)) == DecodeFetched(JArray([items[0]]))
  {
  }

  /** A non-empty JSON string passes the format check (its first character is `data[0]`) and decodes to the defaults. */
  lemma StringReplyDecodesToDefaults(s: string)
    requires s != ""
    ensures DecodeFetched(JString(s)) == Success(Fetched(DefaultVariables, []))
  {
    assert Index0(JString(s)) == Some(JString([s[0]]));
  }

  /** A tone as the workflow stores it in `list_ton`. */
  function ToneJson(t: ToneOption): Json {
    JObject(map["id" := JNumber(t.id), "description" := JString(t.description)])
  }

  function TonesJson(ts: seq<ToneOption>): (r: seq<Json>)
    ensures |r| == |ts|
  {
    if ts == [] then [] else [ToneJson(ts[0])] + TonesJson(ts[1..])
  }

  /** Every stored tone decodes back to itself, in order. */
  lemma {:induction false} TonesDecodeBack(ts: seq<ToneOption>)
    ensures DecodeTones(TonesJson(ts)) == Success(ts)
  {
    if ts != [] {
      var items := TonesJson(ts);
      assert items[0] == ToneJson(ts[0]) && items[1..] == TonesJson(ts[1..]);
      assert DecodeTone(items[0]) == Success(ts[0]);
      TonesDecodeBack(ts[1..]);
      assert [ts[0]] + ts[1..] == ts;
    }
  }

  /** A stored record: the saved variables with a tone list beside them. */
  function StoredRecord(v: NewsletterVariables, ts: seq<ToneOption>): Json {
    JObject(map[
      "ton" := JNumber(v.selectedToneId),
      "n_lignes" := JNumber(v.maxLines),
      "image" := JBool(v.includeImage),
      "keywords" := JString(v.keywords),
      "verification" := JString(v.verification),
      "list_ton" := JArray(TonesJson(ts))])
  }

  /** A fetch of a stored record yields its variables and its tones. */
  lemma StoredRecordFetchesBack(v: NewsletterVariables, ts: seq<ToneOption>)
    ensures DecodeFetched(JArray([StoredRecord(v, ts)])) == Success(Fetched(v, ts))
  {
    var d := Some(StoredRecord(v, ts));
    assert Member(d, "ton") == Some(JNumber(v.selectedToneId));
    assert Member(d, "n_lignes") == Some(JNumber(v.maxLines));
    assert Member(d, "image") == Some(JBool(v.includeImage));
    assert Member(d, "keywords") == Some(JString(v.keywords));
    assert Member(d, "verification") == Some(JString(v.verification));
    assert Member(d, "list_ton") == Some(JArray(TonesJson(ts)));
    TonesDecodeBack(ts);
  }

  // ---------------------------------------------------------------------------
  // Extraction
  // ---------------------------------------------------------------------------

  /** The text is the first truthy candidate, in the order of the source's `||` chain. */
  lemma TextPrecedence(data: Json, i: nat)
    requires i < |TextCandidates(data)| && Truthy(TextCandidates(data)[i])
    requires forall j :: 0 <= j < i ==> !Truthy(TextCandidates(data)[j])
    ensures ExtractedText(data) == TextCandidates(data)[i].value
  {
    var c := TextCandidates(data) + [Some(JString(""))];
    FirstTruthyPicks(c, i);
  }

  /** With no truthy candidate the text is empty. */
  lemma TextDefaultsToEmpty(data: Json)
    requires forall j :: 0 <= j < |TextCandidates(data)| ==> !Truthy(TextCandidates(data)[j])
    ensures ExtractedText(data) == JString("")
  {
    var c := TextCandidates(data) + [Some(JString(""))];
    FirstTruthyFallsBack(c);
  }

  /** The image is the first truthy candidate, and no image is shown when there is none. */
  lemma ImagePrecedence(data: Json, i: nat)
    requires i < |ImageCandidates(data)| && Truthy(ImageCandidates(data)[i])
    requires forall j :: 0 <= j < i ==> !Truthy(ImageCandidates(data)[j])
    ensures ExtractedImage(data) == ImageCandidates(data)[i]
  {
    FirstTruthyPicks(ImageCandidates(data), i);
  }

  lemma NoImageWithoutTruthyCandidate(data: Json)
    requires forall j :: 0 <= j < |ImageCandidates(data)| ==> !Truthy(ImageCandidates(data)[j])
    ensures !ShowsImage(ExtractedImage(data))
  {
    if ImageCandidates(data) != [] {
      FirstTruthyFallsBack(ImageCandidates(data));
    }
  }

  /** An array reply is read through its first element only. */
  lemma ResponseReadsFirstElementOnly(items: seq<Json>)
    requires |items| >= 1
    ensures ResponseContent(JArray(items)) == ResponseContent(JArray([items[0]]))
  {
  }

  /** A reply that is neither an array nor an object yields the empty text. */
  lemma ScalarReplyGivesEmptyText(data: Json)
    requires !data.JArray? && !data.JObject?
    ensures ResponseContent(data) == Success("")
  {
    assert ScanFrom("", 0) == Scan([""], []);
  }

  /**
   * A post of plain text (no `!`, nothing to trim) with a shown image yields
   * the post, a blank line and one image token; with an image that is falsy or
   * the text "false", the post alone.
   */
  lemma PlainPostAndImage(t: string, image: Json)
    requires t != [] && !IsJsWhitespace(t[0]) && !IsJsWhitespace(t[|t| - 1])
    requires forall j :: 0 <= j < |t| ==> t[j] != '!'
    ensures var data := JObject(map["post" := JString(t), "image" := image]);
      ResponseContent(data) ==
        if ShowsImage(Some(image)) then Success(t + ImageSuffix(image)) else Success(t)
  {
    var data := JObject(map["post" := JString(t), "image" := image]);
    NoBangNoToken(t);
    TrimKeepsTrimmed(t);
    assert ExtractedText(data) == JString(t);
    if Truthy(Some(image)) {
      assert ExtractedImage(data) == Some(image);
    } else {
      NoImageWithoutTruthyCandidate(data);
    }
  }

  /**
   * A reply with no truthy text candidate and no image to show yields the empty
   * text, which testKeywords and sendComment reject although the status was ok.
   */
  lemma EmptyReplyRejected(status: int, data: Json)
    requires IsOk(status)
    requires forall j :: 0 <= j < |TextCandidates(data)| ==> !Truthy(TextCandidates(data)[j])
    requires !ShowsImage(ExtractedImage(data))
    ensures ResponseContent(data) == Success("")
    ensures NewsletterReply(Reply(status, Some(data))) == Failure(InvalidFormat)
  {
    TextDefaultsToEmpty(data);
    NoBangNoToken("");
  }

  /** An empty object has none of the fields the extractor reads. */
  lemma EmptyObjectHasNothing()
    ensures forall j :: 0 <= j < |TextCandidates(JObject(map[]))| ==> !Truthy(TextCandidates(JObject(map[]))[j])
    ensures !ShowsImage(ExtractedImage(JObject(map[])))
  {
  }

  /** In an array reply the nested response body post comes before a top-level verification. */
  lemma ArrayPrefersNestedPost(post: string, verification: string)
    requires post != ""
    ensures ExtractedText(JArray([JObject(map[
      "response" := JObject(map["body" := JObject(map["post" := JString(post)])]),
      "verification" := JString(verification)])])) == JString(post)
  {
  }

  /** In an object reply a top-level verification comes before the nested response body post. */
  lemma ObjectPrefersTopLevelVerification(post: string, verification: string)
    requires verification != ""
    ensures ExtractedText(JObject(map[
      "response" := JObject(map["body" := JObject(map["post" := JString(post)])]),
      "verification" := JString(verification)])) == JString(verification)
  {
    var data := JObject(map[
      "response" := JObject(map["body" := JObject(map["post" := JString(post)])]),
      "verification" := JString(verification)]);
    TextPrecedence(data, 1);
  }

  /**
   * The appended token is read back by the preview: its reference, when it
   * holds no `)` and no line break, is what the image pattern captures.
   */
  lemma GeneratedImageIsRecognised(image: Json)
    requires forall j :: 0 <= j < |ToJsString(image)| ==>
      ToJsString(image)[j] != ')' && !IsLineTerminator(ToJsString(image)[j])
    ensures FirstCapture(Text(GeneratedImage(image))) == Some(ToJsString(image))
  {
    GeneratedAltIsPlain();
    RematchToken(GeneratedImage(image));
  }

  /** The alternative text of the generated token holds no line break and no `]`, so no `](` either. */
  lemma GeneratedAltIsPlain()
    ensures forall j :: 0 <= j < |"Generated Image"| ==> !IsLineTerminator("Generated Image"[j])
    ensures forall j :: 0 <= j < |"Generated Image"| ==> "Generated Image"[j] != ']'
  {
    var alt := "Generated Image";
    forall j | 0 <= j < |alt| ensures alt[j] != ']' && !IsLineTerminator(alt[j]) {
      assert alt[j] in "Generated Image";
    }
  }

  /**
   * The comment request carries the text without the inline-image pattern's
   * matches: text where the pattern matches nowhere is only trimmed, and text
   * where it matches is shortened before it is trimmed.
   */
  lemma CommentTextWithoutInlineImages(verification: string)
    ensures FindDataToken(verification, 0).None? ==> CommentText(verification) == Trim(verification)
    ensures FindDataToken(verification, 0).Some? ==>
      |StripDataImagesAsWritten(verification)| < |verification|
  {
    AsWrittenLength(verification, 0);
    if FindDataToken(verification, 0).None? {
      assert StripDataImagesAsWritten(verification) == verification[0..] == verification;
    }
  }

  /** Text in which `](data:image/` never occurs is sent only trimmed. */
  lemma CommentTextWithoutMarker(verification: string)
    requires !Includes(verification, "](data:image/")
    ensures CommentText(verification) == Trim(verification)
  {
    NoMarkerNoDataToken(verification);
    CommentTextWithoutInlineImages(verification);
  }
}
