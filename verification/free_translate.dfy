/**
 * The background handler for free translation (src/background/messages/free-translate.ts):
 * it asks Google Translate's public endpoint for a translation and joins the
 * translated segments of the reply. `fetch` together with `response.json()` is the
 * parameter `fetch`, from URL to reply.
 */
module FreeTranslate {
  import opened Wrappers
  import opened Strings
  import Uri

  /** The message body: `{ text, to }`, either of which may be absent. */
  datatype Request = Request(text: Option<string>, to: Option<string>)

  /** What `response.json()` gives: a parse failure, or the table whose first row
      holds the segments. `rows` is `None` where `data` or `data[0]` is falsy; a
      segment is `None` where its `item[0]` is `null` or `undefined`. */
  datatype Json = Malformed(message: string) | Data(rows: Option<seq<Option<string>>>)

  /** What `fetch` settles to. */
  datatype Reply = Replied(ok: bool, statusText: string, json: Json) | Thrown(message: string)

  /** What the handler sends back: `{ success, translatedText }` or `{ error }`. */
  datatype Answer = Translated(translatedText: string) | Failed(error: string)

  const MissingParameters: string := "Missing required parameters: text and to"
  /** What a failure with an empty message reads as (`error.message || ...`). */
  const DefaultError: string := "Translation failed"
  const Endpoint: string := "https://translate.googleapis.com/translate_a/single"

  /** The query up to the target language. */
  function UrlHead(to: string): string {
    Endpoint + "?client=gtx&sl=auto&tl=" + to + "&dt=t&q="
  }

  /** The request URL: the target language goes in as it is, the text
      percent-encoded. */
  function Url(to: string, text: string): (r: string)
    ensures StartsWith(r, UrlHead(to))
    ensures Uri.Decode(r[|UrlHead(to)|..]) == Some(text)
  {
    Uri.DecodeEncode(text);
    var u := UrlHead(to) + Uri.Encode(text);
    assert u[..|UrlHead(to)|] == UrlHead(to);
    assert u[|UrlHead(to)|..] == Uri.Encode(text);
    u
  }

  /** `item[0]` of each segment, `null` and `undefined` read as "" by `join`. */
  function Texts(rows: seq<Option<string>>): (r: seq<string>)
    ensures |r| == |rows|
    ensures forall i :: 0 <= i < |rows| ==> r[i] == rows[i].GetOr("")
  {
    seq(|rows|, i requires 0 <= i < |rows| => rows[i].GetOr(""))
  }

  /** `data[0].map(item => item[0]).join("")`. */
  function Segments(rows: seq<Option<string>>): string {
    Concat(Texts(rows))
  }

  /** The handler: both parameters must be truthy; any failure after that is caught
      and reported as an `error`. */
  function Handle(req: Request, fetch: string -> Reply): (a: Answer)
    ensures !Truthy(req.text) || !Truthy(req.to) ==> a == Failed(MissingParameters)
    ensures a.Failed? ==> a.error != ""
    ensures a.Translated? ==> Truthy(req.text) && Truthy(req.to) && a.translatedText != ""
    ensures Truthy(req.text) && Truthy(req.to) ==>
      var reply := fetch(Url(req.to.value, req.text.value));
      && (reply.Thrown? ==> a == Failed(MessageOr(reply.message, DefaultError)))
      && (reply.Replied? && !reply.ok ==> a == Failed("Translation API error: " + reply.statusText))
      && (reply.Replied? && reply.ok && reply.json.Malformed? ==>
            a == Failed(MessageOr(reply.json.message, DefaultError)))
      && (reply.Replied? && reply.ok && reply.json.Data? ==>
            a == Translated(if reply.json.rows.Some? && Segments(reply.json.rows.value) != ""
                            then Segments(reply.json.rows.value) else req.text.value))
  {
    if !Truthy(req.text) || !Truthy(req.to) then Failed(MissingParameters)
    else
      var text := req.text.value;
      match fetch(Url(req.to.value, text))
      case Thrown(m) => Failed(MessageOr(m, DefaultError))
      case Replied(ok, statusText, json) =>
        if !ok then Failed("Translation API error: " + statusText)
        else match json
          case Malformed(m) => Failed(MessageOr(m, DefaultError))
          case Data(rows) =>
            var joined := if rows.Some? then Segments(rows.value) else "";
            Translated(if joined != "" then joined else text)
  }

  // ---- Properties ----

  /** The text reaches the endpoint intact: the `q` parameter decodes back to it,
      and its encoding holds no `&`, `=` or `#` that would end the parameter. */
  lemma QueryCarriesText(to: string, text: string)
    ensures Url(to, text)[|UrlHead(to)|..] == Uri.Encode(text)
    ensures Uri.Decode(Url(to, text)[|UrlHead(to)|..]) == Some(text)
    ensures forall i :: |UrlHead(to)| <= i < |Url(to, text)| ==>
      Url(to, text)[i] != '&' && Url(to, text)[i] != '=' && Url(to, text)[i] != '#'
  {
    Uri.DecodeEncode(text);
    Uri.EncodeIsSafe(text);
    SafeSuffix(UrlHead(to), Uri.Encode(text));
  }

  /** A suffix of safe characters holds none of the query's separators. */
  lemma SafeSuffix(head: string, e: string)
    requires forall i :: 0 <= i < |e| ==> Uri.Safe(e[i])
    ensures (head + e)[|head|..] == e
    ensures forall i :: |head| <= i < |head + e| ==> (head + e)[i] != '&' && (head + e)[i] != '=' && (head + e)[i] != '#'
  {
    forall i | |head| <= i < |head + e|
      ensures (head + e)[i] != '&' && (head + e)[i] != '=' && (head + e)[i] != '#'
    {
      assert (head + e)[i] == e[i - |head|];
    }
  }

  /** A row for each text, none missing. */
  function Rows(ts: seq<string>): (rows: seq<Option<string>>)
    ensures |rows| == |ts| && forall i :: 0 <= i < |ts| ==> rows[i] == Some(ts[i])
  {
    seq(|ts|, i requires 0 <= i < |ts| => Some(ts[i]))
  }

  /** Present segments are joined in order. */
  lemma SegmentsOfTexts(ts: seq<string>)
    ensures Segments(Rows(ts)) == Concat(ts)
  {
    assert Texts(Rows(ts)) == ts;
  }

  /** A `null` segment contributes nothing: dropping it leaves the join unchanged. */
  lemma SegmentsSkipMissing(a: seq<Option<string>>, b: seq<Option<string>>)
    ensures Segments(a + [None] + b) == Segments(a + b)
  {
    assert Texts(a + [None] + b) == Texts(a) + [""] + Texts(b);
    assert Texts(a + b) == Texts(a) + Texts(b);
    ConcatAppend(Texts(a) + [""], Texts(b));
    ConcatAppend(Texts(a), [""]);
    ConcatAppend(Texts(a), Texts(b));
    assert Concat([""]) == "";
  }

  /** A reply with nothing translated gives the original text back. */
  lemma EmptyReplyKeepsText(text: string, to: string, fetch: string -> Reply, statusText: string,
                            rows: Option<seq<Option<string>>>)
    requires text != "" && to != ""
    requires fetch(Url(to, text)) == Replied(true, statusText, Data(rows))
    requires rows.Some? ==> forall i :: 0 <= i < |rows.value| ==> rows.value[i].GetOr("") == ""
    ensures Handle(Request(Some(text), Some(to)), fetch) == Translated(text)
  {
    if rows.Some? {
      BlankSegments(rows.value);
    }
  }

  /** The segments join to nothing exactly when every row is missing or empty. */
  lemma BlankSegments(rows: seq<Option<string>>)
    ensures Segments(rows) == "" <==> forall i :: 0 <= i < |rows| ==> rows[i].GetOr("") == ""
  {
    ConcatEmpty(Texts(rows));
  }

  /** A reply whose segments join to something non-empty is that translation. */
  lemma ReplyTranslates(text: string, to: string, fetch: string -> Reply, statusText: string,
                        ts: seq<string>)
    requires text != "" && to != ""
    requires Concat(ts) != ""
    requires fetch(Url(to, text)) == Replied(true, statusText, Data(Some(Rows(ts))))
    ensures Handle(Request(Some(text), Some(to)), fetch) == Translated(Concat(ts))
  {
    SegmentsOfTexts(ts);
    assert Handle(Request(Some(text), Some(to)), fetch) == Translated(Segments(Rows(ts)));
  }
}
