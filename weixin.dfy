/**
 * The `WXRobot` webhook client of trade_lib/weixin.py: the robot's target URL,
 * the acceptance test of the webhook's reply, the input resolution of `sender`,
 * the image source choice and the news validation.
 *
 * File system, network and digest are not modelled; an `Env` supplies them as
 * functions. A request is modelled by the value `_send` would POST; whether the
 * webhook accepts it is decided by `Accept` on the reply.
 */
module WXRobot {
  import opened Wrappers
  import opened Json
  import opened Payloads
  import Base64

  type Byte = Base64.Byte

  const UrlPrefix: string := "https://qyapi.weixin.qq.com/cgi-bin/webhook/send?key="

  const JsonHeaders: seq<(string, string)> := [("Content-Type", "application/json")]

  /** A robot is fixed once built: nothing in the client updates its fields. */
  datatype Robot = Robot(url: string, headers: seq<(string, string)>, proxy: Option<string>)

  /**
   * What the host supplies: `os.path.exists`, file reads, the HTTP GET of an
   * image, MD5 and YAML loading. A read yields `None` when the file cannot be
   * opened or decoded (a directory, no permission, text that is not UTF-8).
   */
  datatype Env = Env(
    pathExists: string -> bool,
    readText: string -> Option<string>,
    readBytes: string -> Option<seq<Byte>>,
    fetch: string -> seq<Byte>,
    md5Hex: seq<Byte> -> string,
    loadYaml: string -> Option<Value>)

  /** The exceptions the client raises, each at the point the source raises it. */
  datatype Error =
    | PathNotGiven                 // os.path.exists(None) raises TypeError
    | NoImageSource                // neither local_file nor remote_url
    | Unreadable(path: string)     // aiofiles.open or read fails on the path
    | YamlInvalid                  // yaml.full_load fails on the file's text
    | NoLength                     // len() of a scalar document
    | TooManyArticles              // more than 8 articles
    | ArticleNotMapping(index: nat) // article.get on something that is not a dict
    | TitleMissing(index: nat)
    | UrlMissing(index: nat)
    | ReplyNotJson                 // resp.json() fails
    | StatusNot200(status: int)
    | ReplyNotMapping              // r.get on a reply that is not a dict
    | ErrmsgNotOk
    | UnawaitedCoroutine           // a coroutine object reaches JSON or YAML

  /** The POST that `_send` makes. */
  datatype Request = Request(url: string, headers: seq<(string, string)>, proxy: Option<string>, body: Value)

  /** The webhook's answer: the HTTP status and the reply parsed as JSON, `None` when it is not JSON. */
  datatype Reply = Reply(status: int, json: Option<Value>)

  /** What one call of `sender` does before the reply: post one request, do nothing, or raise. */
  datatype Dispatch = Posted(request: Request) | Skipped | Refused(error: Error)

  /** What one call of `sender` ends in once the webhook has answered. */
  datatype RunResult = Sent(request: Request) | NotSent | Failed(error: Error)

  // ---------------------------------------------------------------- robot

  /** The key a webhook URL addresses, if it has the robot URL's form. */
  function KeyOf(url: string): Option<string>
  {
    if |UrlPrefix| <= |url| && url[..|UrlPrefix|] == UrlPrefix then Some(url[|UrlPrefix|..]) else None
  }

  /** `WXRobot(key, proxy)`: the URL is the fixed prefix followed by the key, byte for byte. */
  function NewRobot(key: string, proxy: Option<string>): (r: Robot)
    ensures |r.url| == |UrlPrefix| + |key|
    ensures r.url[..|UrlPrefix|] == UrlPrefix && r.url[|UrlPrefix|..] == key
    ensures KeyOf(r.url) == Some(key)
    ensures r.headers == JsonHeaders && r.proxy == proxy
  {
    var url := UrlPrefix + key;
    assert url[..|UrlPrefix|] == UrlPrefix && url[|UrlPrefix|..] == key;
    Robot(url, JsonHeaders, proxy)
  }

  /** Two robots address the same webhook exactly when they were built from the same key. */
  lemma RobotUrlInjective(k0: string, p0: Option<string>, k1: string, p1: Option<string>)
    ensures NewRobot(k0, p0).url == NewRobot(k1, p1).url <==> k0 == k1
  {
    if NewRobot(k0, p0).url == NewRobot(k1, p1).url {
      assert KeyOf(NewRobot(k0, p0).url) == KeyOf(NewRobot(k1, p1).url);
    }
  }

  /** The request `_send(body)` posts: the robot's URL, headers and proxy around `body`. */
  function Post(robot: Robot, body: Value): (req: Request)
    ensures req.url == robot.url && req.headers == robot.headers && req.proxy == robot.proxy
    ensures req.body == body
  {
    Request(robot.url, robot.headers, robot.proxy, body)
  }

  /**
   * The assertions of `_send`, in their order: the reply is read as JSON first,
   * then the status must be 200, then `errmsg` must be "ok".
   */
  function Accept(reply: Reply): (r: Outcome<Error>)
    ensures r.Pass? <==> reply.status == 200 && reply.json.Some? && Get(reply.json.value, "errmsg") == Some(Str("ok"))
    ensures reply.json.Some? && reply.status != 200 ==> r == Fail(StatusNot200(reply.status))
    ensures reply.json.None? ==> r == Fail(ReplyNotJson)
  {
    if reply.json.None? then Fail(ReplyNotJson)
    else if reply.status != 200 then Fail(StatusNot200(reply.status))
    else if !reply.json.value.Object? then Fail(ReplyNotMapping)
    else if Get(reply.json.value, "errmsg") != Some(Str("ok")) then Fail(ErrmsgNotOk)
    else Pass
  }

  // ---------------------------------------------------------------- inputs

  /** Python truthiness of an optional string argument: `None` and `""` are both absent. */
  predicate Given(s: Option<string>)
    ensures Given(s) <==> s !in {None, Some("")}
  {
    s.Some? && s.value != ""
  }

  /** `os.path.exists(path)`: the empty path never exists. */
  predicate Exists(env: Env, path: string)
    ensures path == "" ==> !Exists(env, path)
  {
    path != "" && env.pathExists(path)
  }

  /**
   * `read_file(path)`: the file's text if the path exists, `""` otherwise; a
   * path that exists but cannot be read raises.
   */
  function ReadFile(env: Env, path: Option<string>): (r: Result<string, Error>)
    ensures path.None? <==> r == Err(PathNotGiven)
    ensures path.Some? && Exists(env, path.value) && env.readText(path.value).Some?
            ==> r == Ok(env.readText(path.value).value)
    ensures path.Some? && Exists(env, path.value) && env.readText(path.value).None?
            ==> r == Err(Unreadable(path.value))
    ensures path.Some? && !Exists(env, path.value) ==> r == Ok("")
    ensures r.Ok? && r.value != "" ==> Exists(env, path.value)
  {
    match path
    case None => Err(PathNotGiven)
    case Some(p) =>
      if !Exists(env, p) then Ok("")
      else
        match env.readText(p)
        case None => Err(Unreadable(p))
        case Some(text) => Ok(text)
  }

  /** `msg_data or read_file(msg_file_path)`: given literal data wins and the file is not consulted. */
  function ResolveContent(env: Env, data: Option<string>, path: Option<string>): (r: Result<string, Error>)
    ensures Given(data) ==> r == Ok(data.value)
    ensures !Given(data) ==> r == ReadFile(env, path)
  {
    if Given(data) then Ok(data.value) else ReadFile(env, path)
  }

  // ---------------------------------------------------------------- image

  /**
   * The bytes `send_image` sends: a given local file first, then a given remote
   * URL, otherwise an error. A local file that cannot be read raises.
   */
  function ImageContent(env: Env, localFile: Option<string>, remoteUrl: Option<string>): (r: Result<seq<Byte>, Error>)
    ensures r == Err(NoImageSource) <==> !Given(localFile) && !Given(remoteUrl)
    ensures Given(localFile) && env.readBytes(localFile.value).Some? ==> r == Ok(env.readBytes(localFile.value).value)
    ensures Given(localFile) && env.readBytes(localFile.value).None? ==> r == Err(Unreadable(localFile.value))
    ensures !Given(localFile) && Given(remoteUrl) ==> r == Ok(env.fetch(remoteUrl.value))
  {
    if Given(localFile) then
      match env.readBytes(localFile.value)
      case None => Err(Unreadable(localFile.value))
      case Some(image) => Ok(image)
    else if Given(remoteUrl) then Ok(env.fetch(remoteUrl.value))
    else Err(NoImageSource)
  }

  /** `send_image`: nothing is posted without readable bytes; otherwise base64 and md5 of the same bytes. */
  function SendImage(robot: Robot, env: Env, localFile: Option<string>, remoteUrl: Option<string>): (r: Dispatch)
    ensures r.Refused? <==> (!Given(localFile) && !Given(remoteUrl))
                            || (Given(localFile) && env.readBytes(localFile.value).None?)
    ensures r.Refused? ==> r.error == ImageContent(env, localFile, remoteUrl).error
    ensures !r.Skipped?
    ensures r.Posted? ==> r.request == Post(robot, ImageBody(ImageContent(env, localFile, remoteUrl).value, env.md5Hex))
  {
    match ImageContent(env, localFile, remoteUrl)
    case Err(e) => Refused(e)
    case Ok(image) => Posted(Post(robot, ImageBody(image, env.md5Hex)))
  }

  /** Whatever image `send_image` posts carries base64 and md5 of the one byte sequence it read or fetched. */
  lemma ImageDigestsAgree(robot: Robot, env: Env, localFile: Option<string>, remoteUrl: Option<string>)
    requires SendImage(robot, env, localFile, remoteUrl).Posted?
    ensures var image := ImageContent(env, localFile, remoteUrl).value;
            var msg := Decode(SendImage(robot, env, localFile, remoteUrl).request.body);
            && msg.Some? && msg.value.ImageMsg?
            && Base64.Decode(msg.value.base64) == Some(image)
            && msg.value.md5 == env.md5Hex(image)
  {
  }

  // ---------------------------------------------------------------- news

  /** An article passes the checks of `send_news`: a dict whose `title` and `url` are present and truthy. */
  predicate ValidArticle(a: Value)
  {
    a.Object? && Present(Get(a, "title")) && Present(Get(a, "url"))
  }

  /** The two assertions of the loop body for the article at `index`, title before url. */
  function ArticleCheck(a: Value, index: nat): (r: Outcome<Error>)
    ensures r.Pass? <==> ValidArticle(a)
    ensures !a.Object? ==> r == Fail(ArticleNotMapping(index))
    ensures a.Object? && !Present(Get(a, "title")) ==> r == Fail(TitleMissing(index))
    ensures a.Object? && Present(Get(a, "title")) && !Present(Get(a, "url")) ==> r == Fail(UrlMissing(index))
  {
    if !a.Object? then Fail(ArticleNotMapping(index))
    else if !Present(Get(a, "title")) then Fail(TitleMissing(index))
    else if !Present(Get(a, "url")) then Fail(UrlMissing(index))
    else Pass
  }

  /**
   * The loop over `articles[from..]`: it passes exactly when every article is
   * valid, and otherwise fails at the first invalid article.
   */
  function CheckArticles(items: seq<Value>, from: nat): (r: Outcome<Error>)
    ensures r.Pass? <==> forall j :: from <= j < |items| ==> ValidArticle(items[j])
    ensures r.Fail? ==> exists j :: from <= j < |items| && r == ArticleCheck(items[j], j)
                                    && forall k :: from <= k < j ==> ValidArticle(items[k])
    decreases |items| - from
  {
    if from >= |items| then Pass
    else
      match ArticleCheck(items[from], from)
      case Fail(e) => Fail(e)
      case Pass => CheckArticles(items, from + 1)
  }

  /** `len(articles)` for the documents that have a length; the entries of a mapping, the characters of a string. */
  function Length(doc: Value): (r: Option<nat>)
    ensures r.None? <==> doc.Null? || doc.Bool? || doc.Int?
    ensures doc.Array? ==> r == Some(|doc.items|)
    ensures doc.Object? ==> r == Some(|doc.fields|)
    ensures doc.Str? ==> r == Some(|doc.s|)
  {
    match doc
    case Array(items) => Some(|items|)
    case Object(fields) => Some(|fields|)
    case Str(s) => Some(|s|)
    case _ => None
  }

  /**
   * The checks of `send_news` on the loaded document. The only bound is `len <= 8`:
   * there is no lower bound. Iterating a non-empty mapping or string yields
   * strings, whose `.get` raises.
   */
  function ValidateNews(doc: Value): (r: Outcome<Error>)
    ensures r.Pass? <==> (doc.Array? && |doc.items| <= 8 && forall j :: 0 <= j < |doc.items| ==> ValidArticle(doc.items[j]))
                         || doc == Object([]) || doc == Str("")
    ensures Length(doc).None? ==> r == Fail(NoLength)
    ensures Length(doc).Some? && Length(doc).value > 8 ==> r == Fail(TooManyArticles)
  {
    match Length(doc)
    case None => Fail(NoLength)
    case Some(n) =>
      if n > 8 then Fail(TooManyArticles)
      else if doc.Array? then CheckArticles(doc.items, 0)
      else if n == 0 then Pass
      else Fail(ArticleNotMapping(0))
  }

  /** `send_news`: the document is posted unchanged exactly when it passes validation. */
  function SendNews(robot: Robot, doc: Value): (r: Dispatch)
    ensures r.Posted? <==> ValidateNews(doc).Pass?
    ensures r.Refused? <==> ValidateNews(doc).Fail?
    ensures r.Posted? ==> r.request == Post(robot, NewsBody(doc)) && Decode(r.request.body) == Some(NewsMsg(doc))
    ensures r.Refused? ==> r.error == ValidateNews(doc).error
  {
    match ValidateNews(doc)
    case Fail(e) => Refused(e)
    case Pass => Posted(Post(robot, NewsBody(doc)))
  }

  /** More than eight articles are refused, whatever they hold. */
  lemma NewsRejectsMoreThanEight(items: seq<Value>)
    requires |items| > 8
    ensures ValidateNews(Array(items)) == Fail(TooManyArticles)
  {
  }

  /** Eight valid articles are accepted: 8 is inside the bound. */
  lemma NewsAcceptsEightValid(items: seq<Value>)
    requires |items| == 8 && forall j :: 0 <= j < 8 ==> ValidArticle(items[j])
    ensures ValidateNews(Array(items)) == Pass
  {
  }

  /** An empty article list is accepted, although the message of the check says 1-8. */
  lemma NewsAcceptsEmptyList()
    ensures ValidateNews(Array([])) == Pass
  {
  }

  /** The first article with a missing or empty title or url decides the error. */
  lemma NewsFirstInvalidArticle(items: seq<Value>, j: nat)
    requires |items| <= 8 && j < |items| && !ValidArticle(items[j])
    requires forall k :: 0 <= k < j ==> ValidArticle(items[k])
    ensures ValidateNews(Array(items)) == ArticleCheck(items[j], j)
  {
    var r := CheckArticles(items, 0);
    assert r.Fail?;
    var i :| 0 <= i < |items| && r == ArticleCheck(items[i], i) && forall k :: 0 <= k < i ==> ValidArticle(items[k]);
    assert i == j;
  }

  // ---------------------------------------------------------------- dispatch

  /**
   * `sender(msg_type, msg_data, msg_file_path)` with every `read_file` awaited:
   * text and markdown take the literal data or else the file's text, image
   * takes an existing path as a local file and anything else as a URL, news
   * loads the file's text as YAML, and any other type sends nothing.
   */
  function Sender(robot: Robot, env: Env, msgType: string, msgData: Option<string>, msgFilePath: Option<string>): (r: Dispatch)
    ensures r.Skipped? <==> msgType !in {"text", "markdown", "image", "news"}
    ensures r.Posted? ==> r.request.url == robot.url && r.request.headers == robot.headers && r.request.proxy == robot.proxy
    ensures msgType == "text" ==>
              (r.Posted? <==> ResolveContent(env, msgData, msgFilePath).Ok?)
              && (r.Posted? ==> Decode(r.request.body) == Some(TextMsg(ResolveContent(env, msgData, msgFilePath).value)))
    ensures msgType == "markdown" ==>
              (r.Posted? <==> ResolveContent(env, msgData, msgFilePath).Ok?)
              && (r.Posted? ==> Decode(r.request.body) == Some(MarkdownMsg(ResolveContent(env, msgData, msgFilePath).value)))
    ensures msgType == "image" && msgFilePath.None? ==> r == Refused(PathNotGiven)
    ensures msgFilePath.None? && (msgType == "news" || ((msgType == "text" || msgType == "markdown") && !Given(msgData)))
            ==> r == Refused(PathNotGiven)
    ensures msgType == "image" && r.Posted? ==> Decode(r.request.body).Some? && Decode(r.request.body).value.ImageMsg?
    ensures msgType == "news" && r.Posted? ==>
              Decode(r.request.body).Some? && Decode(r.request.body).value.NewsMsg?
              && ValidateNews(Decode(r.request.body).value.articles).Pass?
  {
    if msgType == "text" then
      match ResolveContent(env, msgData, msgFilePath)
      case Err(e) => Refused(e)
      case Ok(content) => Posted(Post(robot, TextBody(content)))
    else if msgType == "markdown" then
      match ResolveContent(env, msgData, msgFilePath)
      case Err(e) => Refused(e)
      case Ok(content) => Posted(Post(robot, MarkdownBody(content)))
    else if msgType == "image" then
      match msgFilePath
      case None => Refused(PathNotGiven)
      case Some(p) =>
        if Exists(env, p) then SendImage(robot, env, Some(p), None)
        else SendImage(robot, env, None, Some(p))
    else if msgType == "news" then
      match ReadFile(env, msgFilePath)
      case Err(e) => Refused(e)
      case Ok(text) =>
        match env.loadYaml(text)
        case None => Refused(YamlInvalid)
        case Some(doc) => SendNews(robot, doc)
    else Skipped
  }

  /**
   * `sender` as the source has it: `read_file` is called without `await` in the
   * text, markdown and news branches, so a coroutine object, not the file's
   * text, reaches the JSON encoder of the POST or `yaml.full_load`, and both raise.
   */
  function SenderAsWritten(robot: Robot, env: Env, msgType: string, msgData: Option<string>, msgFilePath: Option<string>): (r: Dispatch)
    ensures msgType == "news" ==> r == Refused(UnawaitedCoroutine)
  {
    if msgType == "text" then
      if Given(msgData) then Posted(Post(robot, TextBody(msgData.value))) else Refused(UnawaitedCoroutine)
    else if msgType == "markdown" then
      if Given(msgData) then Posted(Post(robot, MarkdownBody(msgData.value))) else Refused(UnawaitedCoroutine)
    else if msgType == "image" then
      match msgFilePath
      case None => Refused(PathNotGiven)
      case Some(p) =>
        if Exists(env, p) then SendImage(robot, env, Some(p), None)
        else SendImage(robot, env, None, Some(p))
    else if msgType == "news" then
      Refused(UnawaitedCoroutine)
    else Skipped
  }

  /** One whole call: dispatch, then `_send`'s verdict on the webhook's reply to the posted request. */
  function Run(robot: Robot, env: Env, msgType: string, msgData: Option<string>, msgFilePath: Option<string>,
               respond: Request -> Reply): (r: RunResult)
    ensures r.Sent? <==> Sender(robot, env, msgType, msgData, msgFilePath).Posted?
                         && Accept(respond(Sender(robot, env, msgType, msgData, msgFilePath).request)).Pass?
    ensures r.NotSent? <==> Sender(robot, env, msgType, msgData, msgFilePath).Skipped?
    ensures r.Sent? ==> r.request == Sender(robot, env, msgType, msgData, msgFilePath).request
  {
    match Sender(robot, env, msgType, msgData, msgFilePath)
    case Skipped => NotSent
    case Refused(e) => Failed(e)
    case Posted(req) =>
      match Accept(respond(req))
      case Pass => Sent(req)
      case Fail(e) => Failed(e)
  }

  // ---------------------------------------------------------------- properties of sender

  /** Given literal data, text and markdown post it unchanged, whatever the file system and path. */
  lemma LiteralDataWins(robot: Robot, e0: Env, e1: Env, msgType: string, data: Option<string>,
                        p0: Option<string>, p1: Option<string>)
    requires msgType == "text" || msgType == "markdown"
    requires Given(data)
    ensures Sender(robot, e0, msgType, data, p0) == Sender(robot, e1, msgType, data, p1)
    ensures Sender(robot, e0, msgType, data, p0)
            == Posted(Post(robot, if msgType == "text" then TextBody(data.value) else MarkdownBody(data.value)))
  {
  }

  /**
   * Without literal data, text and markdown post the file's text, or `""` when
   * the path does not exist; an existing file that cannot be read raises.
   */
  lemma FileFallback(robot: Robot, env: Env, msgType: string, data: Option<string>, path: string)
    requires msgType == "text" || msgType == "markdown"
    requires !Given(data)
    ensures var r := Sender(robot, env, msgType, data, Some(path));
            if Exists(env, path) && env.readText(path).None? then r == Refused(Unreadable(path))
            else
              var content := if Exists(env, path) then env.readText(path).value else "";
              && r.Posted?
              && Decode(r.request.body) == Some(if msgType == "text" then TextMsg(content) else MarkdownMsg(content))
  {
  }

  /**
   * An existing image path is read as a local file (and raises if it cannot be
   * read), any other non-empty path is fetched, and "" is refused.
   */
  lemma ImagePathChoice(robot: Robot, env: Env, data: Option<string>, path: string)
    ensures Sender(robot, env, "image", data, Some(path))
            == if path == "" then Refused(NoImageSource)
               else if !Exists(env, path) then Posted(Post(robot, ImageBody(env.fetch(path), env.md5Hex)))
               else if env.readBytes(path).None? then Refused(Unreadable(path))
               else Posted(Post(robot, ImageBody(env.readBytes(path).value, env.md5Hex)))
  {
  }

  /**
   * News loads the file's text (or `""`) as YAML and posts the document exactly
   * when it validates. A missing file loads as `None` when `yaml.full_load("")`
   * is `None`, and `len(None)` then raises.
   */
  lemma NewsFromFile(robot: Robot, env: Env, data: Option<string>, path: string)
    ensures var r := Sender(robot, env, "news", data, Some(path));
            if Exists(env, path) && env.readText(path).None? then r == Refused(Unreadable(path))
            else
              var text := if Exists(env, path) then env.readText(path).value else "";
              && (env.loadYaml(text).None? ==> r == Refused(YamlInvalid))
              && (env.loadYaml(text).Some? ==>
                    (r.Posted? <==> ValidateNews(env.loadYaml(text).value).Pass?)
                    && (r.Posted? ==> Decode(r.request.body) == Some(NewsMsg(env.loadYaml(text).value))))
    ensures !Exists(env, path) && env.loadYaml("") == Some(Null)
            ==> Sender(robot, env, "news", data, Some(path)) == Refused(NoLength)
  {
  }

  /** A message type other than the four sends nothing and raises nothing. */
  lemma UnknownTypeSendsNothing(robot: Robot, env: Env, msgType: string, data: Option<string>, path: Option<string>)
    requires msgType !in {"text", "markdown", "image", "news"}
    ensures Sender(robot, env, msgType, data, path) == Skipped
  {
  }

  /** The example of the usage text: "Hello world" as text, answered by 200 and errmsg "ok", then by status 500. */
  lemma HelloWorld(key: string, env: Env, path: Option<string>)
    ensures var robot := NewRobot(key, None);
            var body := Object([("msgtype", Str("text")), ("text", Object([("content", Str("Hello world"))]))]);
            var req := Request(UrlPrefix + key, JsonHeaders, None, body);
            && Sender(robot, env, "text", Some("Hello world"), path) == Posted(req)
            && Run(robot, env, "text", Some("Hello world"), path,
                   _ => Reply(200, Some(Object([("errcode", Int(0)), ("errmsg", Str("ok"))])))) == Sent(req)
            && Run(robot, env, "text", Some("Hello world"), path,
                   _ => Reply(500, Some(Object([])))) == Failed(StatusNot200(500))
  {
    LookupPair("errcode", Int(0), "errmsg", Str("ok"), "errmsg");
  }

  // ---------------------------------------------------------------- the missing await

  /** Where no file is read, the source as written and the awaited model agree. */
  lemma AsWrittenAgreesWithoutFile(robot: Robot, env: Env, msgType: string, data: Option<string>, path: Option<string>)
    requires msgType != "news"
    requires (msgType == "text" || msgType == "markdown") ==> Given(data)
    ensures SenderAsWritten(robot, env, msgType, data, path) == Sender(robot, env, msgType, data, path)
  {
  }

  /** With the file as the only source, the source as written raises where the awaited model posts the file's text. */
  lemma AsWrittenLosesFileContent(robot: Robot, env: Env, msgType: string, data: Option<string>, path: string)
    requires msgType == "text" || msgType == "markdown"
    requires !Given(data)
    ensures SenderAsWritten(robot, env, msgType, data, Some(path)) == Refused(UnawaitedCoroutine)
    ensures Sender(robot, env, msgType, data, Some(path)).Posted? <==> !(Exists(env, path) && env.readText(path).None?)
  {
  }
}
