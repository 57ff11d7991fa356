/**
 * The four request bodies of the webhook, each a JSON tree tagged by `msgtype`,
 * and a reader that recovers the message a body carries.
 */
module Payloads {
  import opened Wrappers
  import opened Json
  import Base64

  /** The message a request body carries, as the webhook reads it. */
  datatype Message =
    | TextMsg(content: string)
    | MarkdownMsg(content: string)
    | ImageMsg(base64: string, md5: string)
    | NewsMsg(articles: Value)

  /** `body[outer][inner]`, or `None` when either key is missing. */
  function Nested(body: Value, outer: string, inner: string): Option<Value>
  {
    match Get(body, outer)
    case None => None
    case Some(section) => Get(section, inner)
  }

  function StringAt(body: Value, outer: string, inner: string): Option<string>
  {
    match Nested(body, outer, inner)
    case Some(Str(s)) => Some(s)
    case _ => None
  }

  /** Reads a request body back: the `msgtype` tag selects the section and the fields that make up the message. */
  function Decode(body: Value): Option<Message>
  {
    match Get(body, "msgtype")
    case Some(Str(kind)) =>
      if kind == "text" then
        match StringAt(body, "text", "content")
        case Some(c) => Some(TextMsg(c))
        case None => None
      else if kind == "markdown" then
        match StringAt(body, "markdown", "content")
        case Some(c) => Some(MarkdownMsg(c))
        case None => None
      else if kind == "image" then
        match (StringAt(body, "image", "base64"), StringAt(body, "image", "md5"))
        case (Some(b), Some(m)) => Some(ImageMsg(b, m))
        case _ => None
      else if kind == "news" then
        match Nested(body, "news", "articles")
        case Some(a) => Some(NewsMsg(a))
        case None => None
      else None
    case _ => None
  }

  /** The `msgtype` tag of a body. */
  function Kind(body: Value): Option<Value>
  {
    Get(body, "msgtype")
  }

  /** The body of `send_text`: tagged "text", carrying `content` unchanged. */
  function TextBody(content: string): (body: Value)
    ensures Kind(body) == Some(Str("text"))
    ensures Decode(body) == Some(TextMsg(content))
  {
    LookupPair("msgtype", Str("text"), "text", Object([("content", Str(content))]), "msgtype");
    Object([("msgtype", Str("text")), ("text", Object([("content", Str(content))]))])
  }

  /** The body of `send_markdown`: tagged "markdown", carrying `content` unchanged. */
  function MarkdownBody(content: string): (body: Value)
    ensures Kind(body) == Some(Str("markdown"))
    ensures Decode(body) == Some(MarkdownMsg(content))
  {
    LookupPair("msgtype", Str("markdown"), "markdown", Object([("content", Str(content))]), "msgtype");
    Object([("msgtype", Str("markdown")), ("markdown", Object([("content", Str(content))]))])
  }

  /**
   * The body of `send_image`: tagged "image"; its `base64` field decodes to
   * exactly `image`, and its `md5` field is the digest of the same bytes.
   */
  function ImageBody(image: seq<Base64.Byte>, md5Hex: seq<Base64.Byte> -> string): (body: Value)
    ensures Kind(body) == Some(Str("image"))
    ensures Decode(body).Some? && Decode(body).value.ImageMsg?
    ensures Base64.Decode(Decode(body).value.base64) == Some(image)
    ensures Decode(body).value.md5 == md5Hex(image)
  {
    Base64.DecodeEncode(image);
    var section := Object([("base64", Str(Base64.Encode(image))), ("md5", Str(md5Hex(image)))]);
    LookupPair("msgtype", Str("image"), "image", section, "msgtype");
    LookupPair("msgtype", Str("image"), "image", section, "image");
    LookupPair("base64", Str(Base64.Encode(image)), "md5", Str(md5Hex(image)), "base64");
    LookupPair("base64", Str(Base64.Encode(image)), "md5", Str(md5Hex(image)), "md5");
    Object([("msgtype", Str("image")), ("image", section)])
  }

  /** The body of `send_news`: tagged "news", carrying the article list unchanged. */
  function NewsBody(articles: Value): (body: Value)
    ensures Kind(body) == Some(Str("news"))
    ensures Decode(body) == Some(NewsMsg(articles))
  {
    LookupPair("msgtype", Str("news"), "news", Object([("articles", articles)]), "msgtype");
    Object([("msgtype", Str("news")), ("news", Object([("articles", articles)]))])
  }
}
