/** `URLSubmissionMessage`: a submission that names its content by URL, and its
    four-key queue payload. */
module UrlSubmission {
  import opened Wrappers
  import opened PyValue

  /** The default, and reserved, value of `event_type` for this family. */
  const UrlSubmissionTag: string := "URLSubmission"

  const ContentTypeKey: string := "ContentType"
  const ContentIdKey: string := "ContentId"
  const UrlKey: string := "URL"
  const EventTypeKey: string := "EventType"

  /** The four payload keys. */
  const WireKeys: set<string> := {ContentTypeKey, ContentIdKey, UrlKey, EventTypeKey}

  /** What the `content_type` field holds. A message built by a submitter holds
      a content-type class, seen here through the registry name its `get_name()`
      returns. A decoded message holds the raw `ContentType` string of the
      payload, which has no `get_name()`. */
  datatype ContentTypeRef =
    | ContentTypeClass(name: string)
    | RawName(s: string)

  datatype UrlSubmissionMessage = UrlSubmissionMessage(
    contentType: ContentTypeRef,
    contentId: string,
    url: string,
    eventType: string)

  /** The dataclass constructor with `event_type` left at its default. */
  function NewMessage(contentType: ContentTypeRef, contentId: string, url: string): (m: UrlSubmissionMessage)
    ensures m.eventType == UrlSubmissionTag
    ensures m.contentType == contentType && m.contentId == contentId && m.url == url
  {
    UrlSubmissionMessage(contentType, contentId, url, UrlSubmissionTag)
  }

  /** `content_type.get_name()`: a content-type class answers with its registry
      name; a string has no such method. */
  function GetName(ct: ContentTypeRef): (r: Result<string, PyError>)
  {
    match ct
    case ContentTypeClass(name) => Success(name)
    case RawName(_) => Failure(AttributeError)
  }

  /** `to_sqs_message`. For a message whose content type is a class, the
      payload has exactly the four wire keys, each holding its field, the
      content type by its name, and decoding it gives back the message with
      that name as its raw content type. For a message holding a raw string it
      raises `AttributeError`. */
  function ToSqsMessage(m: UrlSubmissionMessage): (r: Result<map<string, string>, PyError>)
    ensures r.Success? <==> m.contentType.ContentTypeClass?
    ensures r.Failure? ==> r.error == AttributeError
    ensures r.Success? ==>
      && r.value.Keys == WireKeys
      && r.value[ContentTypeKey] == m.contentType.name
      && r.value[ContentIdKey] == m.contentId
      && r.value[UrlKey] == m.url
      && r.value[EventTypeKey] == m.eventType
    ensures r.Success? ==>
      FromSqsMessage(r.value) == Success(m.(contentType := RawName(m.contentType.name)))
  {
    var name :- GetName(m.contentType);
    Success(map[ContentTypeKey := name, ContentIdKey := m.contentId,
                UrlKey := m.url, EventTypeKey := m.eventType])
  }

  /** `from_sqs_message`: reads ContentType, ContentId, URL and EventType, in
      that order, and the first missing one raises `KeyError`. The values are
      not checked, and the content type is kept as the raw string. */
  function FromSqsMessage(d: map<string, string>): (r: Result<UrlSubmissionMessage, PyError>)
    ensures r.Success? <==> WireKeys <= d.Keys
    ensures r.Success? ==>
      && r.value.contentType == RawName(d[ContentTypeKey])
      && r.value.contentId == d[ContentIdKey]
      && r.value.url == d[UrlKey]
      && r.value.eventType == d[EventTypeKey]
    ensures ContentTypeKey !in d ==> r == Failure(KeyError(JStr(ContentTypeKey)))
    ensures ContentTypeKey in d && ContentIdKey !in d ==> r == Failure(KeyError(JStr(ContentIdKey)))
    ensures ContentTypeKey in d && ContentIdKey in d && UrlKey !in d ==> r == Failure(KeyError(JStr(UrlKey)))
    ensures ContentTypeKey in d && ContentIdKey in d && UrlKey in d && EventTypeKey !in d ==>
      r == Failure(KeyError(JStr(EventTypeKey)))
  {
    var contentType :- Get(d, ContentTypeKey);
    var contentId :- Get(d, ContentIdKey);
    var url :- Get(d, UrlKey);
    var eventType :- Get(d, EventTypeKey);
    Success(UrlSubmissionMessage(RawName(contentType), contentId, url, eventType))
  }

  /** `d[k]` on a string-valued payload. */
  function Get(d: map<string, string>, k: string): (r: Result<string, PyError>)
    ensures r.Success? <==> k in d
    ensures r.Success? ==> r.value == d[k]
    ensures r.Failure? ==> r.error == KeyError(JStr(k))
  {
    if k in d then Success(d[k]) else Failure(KeyError(JStr(k)))
  }

  /** `could_be`: the cheap family test, on a payload with values of any type. */
  predicate CouldBe<V>(d: map<string, V>)
  {
    EventTypeKey in d
  }

  /** A decoded message cannot be encoded again: its content type is the raw
      string of the payload, and `to_sqs_message` calls `get_name()` on it. */
  lemma ReencodeDecodedRaises(d: map<string, string>)
    requires FromSqsMessage(d).Success?
    ensures ToSqsMessage(FromSqsMessage(d).value) == Failure(AttributeError)
  {
  }

  /** A message built with the default event type and a content-type class
      serialises with the reserved tag, and the payload passes `could_be`. */
  lemma DefaultEventType(name: string, contentId: string, url: string)
    ensures ToSqsMessage(NewMessage(ContentTypeClass(name), contentId, url)).Success?
    ensures ToSqsMessage(NewMessage(ContentTypeClass(name), contentId, url)).value[EventTypeKey] == UrlSubmissionTag
    ensures CouldBe(ToSqsMessage(NewMessage(ContentTypeClass(name), contentId, url)).value)
  {
  }

  /** Every payload the decoder accepts, and every payload the encoder
      produces, passes `could_be`. */
  lemma DecodableCouldBe(d: map<string, string>, m: UrlSubmissionMessage)
    ensures FromSqsMessage(d).Success? ==> CouldBe(d)
    ensures ToSqsMessage(m).Success? ==> CouldBe(ToSqsMessage(m).value)
  {
  }

  /** `could_be` is not authoritative: a payload holding only `EventType` passes
      it and still fails to decode, on the first key read. */
  lemma CouldBeDoesNotImplyDecodable()
    ensures CouldBe(map[EventTypeKey := UrlSubmissionTag])
    ensures FromSqsMessage(map[EventTypeKey := UrlSubmissionTag]) == Failure(KeyError(JStr("ContentType")))
  {
  }
}
