/**
 * The request that produces a report: choose the document source from the
 * submitted form, extract its text, pick the language, ask the language
 * model for an analysis, parse the answer and plan the report.
 *
 * Everything outside this process is a parameter: the two text extractors
 * (`extractPdf`, `extractImage`, which map a URL to the extracted text and
 * report any failure as the empty string), the language classifier
 * (`classify`, `None` when it raises), the completion call (`complete`,
 * which returns the answer or the error's message), the right-to-left
 * shaping function (`shape`) and whether the logo file exists.
 */
module Service {
  import opened Common
  import opened Config
  import opened Parser
  import opened Render

  /** The two optional form fields of the request. */
  datatype Form = Form(pdfUrl: Option<string>, imageUrl: Option<string>)

  datatype Source = PdfSource(url: string) | ImageSource(url: string)

  /** The errors answered with status 400 before the model is asked. */
  datatype RequestError = NoUrlProvided | PdfExtractionFailed | ImageExtractionFailed

  /** The HTTP status of a rejected request. */
  const BadRequest := 400

  /** The `error` field of a rejection's JSON body. */
  function ErrorMessage(e: RequestError): (message: string)
    ensures message != []
  {
    match e
    case NoUrlProvided => "No URL provided"
    case PdfExtractionFailed => "Failed to extract text from PDF"
    case ImageExtractionFailed => "Failed to extract text from Image"
  }

  /** Each error has its own message, so a client can tell the three
      rejections apart from the message alone. */
  lemma ErrorMessagesDistinct(e1: RequestError, e2: RequestError)
    requires ErrorMessage(e1) == ErrorMessage(e2)
    ensures e1 == e2
  {
  }

  /** Python truthiness of a form field: present and not empty. */
  predicate Provided(field: Option<string>) {
    field.Some? && field.value != []
  }

  /**
   * The source to extract from: the PDF URL whenever one is given, the
   * image URL only when no PDF URL is, and an error when neither is.
   */
  function SelectSource(form: Form): (r: Result<Source, RequestError>)
    ensures r.Err? <==> !Provided(form.pdfUrl) && !Provided(form.imageUrl)
    ensures r.Err? ==> r.error == NoUrlProvided
    ensures r.Ok? ==> (r.value.PdfSource? <==> Provided(form.pdfUrl))
    ensures r.Ok? && r.value.PdfSource? ==> Some(r.value.url) == form.pdfUrl
    ensures r.Ok? && r.value.ImageSource? ==> Some(r.value.url) == form.imageUrl
  {
    if !Provided(form.pdfUrl) && !Provided(form.imageUrl) then Err(NoUrlProvided)
    else if Provided(form.pdfUrl) then Ok(PdfSource(form.pdfUrl.value))
    else Ok(ImageSource(form.imageUrl.value))
  }

  /**
   * The extracted text of the selected source. An empty extraction is an
   * error naming the source it came from, so a successful result is never
   * empty.
   */
  function ExtractText(form: Form, extractPdf: string -> string, extractImage: string -> string): (r: Result<string, RequestError>)
    ensures r.Ok? ==> r.value != []
    ensures r.Ok? && Provided(form.pdfUrl) ==> r.value == extractPdf(form.pdfUrl.value)
    ensures r.Ok? && !Provided(form.pdfUrl) ==> form.imageUrl.Some? && r.value == extractImage(form.imageUrl.value)
    ensures SelectSource(form).Err? ==> r == Err(NoUrlProvided)
    ensures SelectSource(form).Ok? && SelectSource(form).value.PdfSource? ==>
              r.Err? == (extractPdf(form.pdfUrl.value) == []) && (r.Err? ==> r.error == PdfExtractionFailed)
    ensures SelectSource(form).Ok? && SelectSource(form).value.ImageSource? ==>
              r.Err? == (extractImage(form.imageUrl.value) == []) && (r.Err? ==> r.error == ImageExtractionFailed)
  {
    match SelectSource(form)
    case Err(e) => Err(e)
    case Ok(PdfSource(url)) =>
      var text := extractPdf(url);
      if text == [] then Err(PdfExtractionFailed) else Ok(text)
    case Ok(ImageSource(url)) =>
      var text := extractImage(url);
      if text == [] then Err(ImageExtractionFailed) else Ok(text)
  }

  /** With neither URL the request fails with the same error whatever the
      extractors would have done: neither of them is consulted. */
  lemma NoUrlNoExtraction(form: Form, p1: string -> string, i1: string -> string, p2: string -> string, i2: string -> string)
    requires !Provided(form.pdfUrl) && !Provided(form.imageUrl)
    ensures ExtractText(form, p1, i1) == ExtractText(form, p2, i2) == Err(NoUrlProvided)
  {
  }

  /** With a PDF URL the image extractor is never consulted, even when an
      image URL is given too. */
  lemma PdfTakesPrecedence(form: Form, extractPdf: string -> string, i1: string -> string, i2: string -> string)
    requires Provided(form.pdfUrl)
    ensures ExtractText(form, extractPdf, i1) == ExtractText(form, extractPdf, i2)
  {
  }

  /** With only an image URL the PDF extractor is never consulted. */
  lemma ImageOnlyWithoutPdf(form: Form, p1: string -> string, p2: string -> string, extractImage: string -> string)
    requires !Provided(form.pdfUrl) && Provided(form.imageUrl)
    ensures ExtractText(form, p1, extractImage) == ExtractText(form, p2, extractImage)
  {
  }

  // ------------------------------------------------------------ pipeline

  /** What the analysis produces: the planned report with the model's
      answer passed through, or the completion error's message. */
  datatype Suggestions = Formatted(pdf: seq<Element>, text: string) | CompletionFailed(message: string)

  /** The endpoint's reply: an error with its status and message, or the
      suggestions. */
  datatype Reply = Rejected(status: int, message: string) | Answered(suggestions: Suggestions)

  function Reject(e: RequestError): Reply {
    Rejected(BadRequest, ErrorMessage(e))
  }

  /**
   * The response formatter: parses the model's answer with the language's
   * sections and plans the report for the items; the answer itself is
   * returned unchanged beside the plan.
   */
  method FormatResponse(text: string, language: string, shape: string -> string, logoExists: bool)
    returns (r: Suggestions)
    requires language in LanguageConfigs
    ensures r.Formatted? && r.text == text
    ensures r.pdf == DocumentPlan(Parse(LanguageConfigs[language].sections, language, text), language, shape, logoExists)
  {
    var sections := LanguageConfigs[language].sections;
    var items := FormatContent(sections, text, language);
    var pdf := CreatePdf(items, language, shape, logoExists);
    r := Formatted(pdf, text);
  }

  /** The reply the whole request produces, as a function of its inputs. */
  function Respond(form: Form, extractPdf: string -> string, extractImage: string -> string,
                 classify: string -> Option<string>, complete: (string, string) -> Result<string, string>,
                 shape: string -> string, logoExists: bool): Reply
  {
    match ExtractText(form, extractPdf, extractImage)
    case Err(e) => Reject(e)
    case Ok(text) =>
      var language := DetectLanguage(classify(text));
      match complete(text, language)
      case Err(message) => Answered(CompletionFailed(message))
      case Ok(answer) =>
        Answered(Formatted(DocumentPlan(Parse(LanguageConfigs[language].sections, language, answer),
                                        language, shape, logoExists), answer))
  }

  /**
   * The report endpoint: rejects a request without a URL or whose
   * extraction came back empty, otherwise detects the language, asks the
   * model and formats its answer; a completion error becomes the
   * suggestions' error message.
   */
  method GetPdfSuggestions(form: Form, extractPdf: string -> string, extractImage: string -> string,
                           classify: string -> Option<string>, complete: (string, string) -> Result<string, string>,
                           shape: string -> string, logoExists: bool)
    returns (reply: Reply)
    ensures reply == Respond(form, extractPdf, extractImage, classify, complete, shape, logoExists)
    ensures reply.Rejected? <==> ExtractText(form, extractPdf, extractImage).Err?
    ensures reply.Rejected? ==>
              reply.status == BadRequest
              && reply.message == ErrorMessage(ExtractText(form, extractPdf, extractImage).error)
  {
    var pdfUrl := form.pdfUrl;
    var imageUrl := form.imageUrl;
    if !Provided(pdfUrl) && !Provided(imageUrl) {
      return Reject(NoUrlProvided);
    }
    var extracted := "";
    if Provided(pdfUrl) {
      extracted := extractPdf(pdfUrl.value);
      if extracted == [] {
        return Reject(PdfExtractionFailed);
      }
    } else if Provided(imageUrl) {
      extracted := extractImage(imageUrl.value);
      if extracted == [] {
        return Reject(ImageExtractionFailed);
      }
    }
    var language := DetectLanguage(classify(extracted));
    var suggestions := PredictSuggestions(extracted, language, complete, shape, logoExists);
    reply := Answered(suggestions);
  }

  /** Asks the model for the analysis in the given language and formats
      the answer; a failed call yields its error message instead. */
  method PredictSuggestions(text: string, language: string, complete: (string, string) -> Result<string, string>,
                            shape: string -> string, logoExists: bool)
    returns (r: Suggestions)
    requires language in LanguageConfigs
    ensures complete(text, language).Err? ==> r == CompletionFailed(complete(text, language).error)
    ensures complete(text, language).Ok? ==>
              var answer := complete(text, language).value;
              r == Formatted(DocumentPlan(Parse(LanguageConfigs[language].sections, language, answer),
                                          language, shape, logoExists), answer)
  {
    match complete(text, language)
    case Err(message) =>
      r := CompletionFailed(message);
    case Ok(answer) =>
      r := FormatResponse(answer, language, shape, logoExists);
  }
}
