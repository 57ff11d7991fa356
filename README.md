# WXRobot webhook client — a Dafny model

This project models the message-building core of `trade_lib/weixin.py`. That file is a client for the group-robot webhook of WeCom (Work WeiXin). The model covers:

- how a robot's target URL is built from its key;
- the four request bodies (text, markdown, image, news), each a JSON tree tagged by `msgtype`;
- the checks `send_news` applies to the article list;
- how `send_image` chooses its byte source, and how its `base64` and `md5` fields derive from those bytes;
- the test `_send` applies to the webhook's reply;
- how `sender` dispatches on the message type and resolves literal data against a file path.

The model is written as pure functions. The client keeps no mutable state: the robot's fields are set once by the constructor. The host is an `Env` value whose function fields stand for:

- `os.path.exists` (the model makes the empty path never exist, as in Python) and the text and byte reads of `aiofiles`, which may fail;
- the image GET of `aiohttp`;
- `hashlib.md5(...).hexdigest()`;
- `yaml.full_load`.

Modules:

- `Wrappers`: `Option`, `Result` and `Outcome`.
- `Json`: the value tree. It also gives Python's `dict.get` (a later binding of a key wins) and Python truthiness, where `None`, `False`, `0`, `""`, `[]` and `{}` count as absent.
- `Base64`: the standard-alphabet encoder with `=` padding (section 4 of RFC 4648) that `base64.b64encode` implements. It comes with a decoder that rejects characters outside the alphabet and misplaced padding (it ignores the unused bits of a padded group), and the proof that decoding an encoding gives back the bytes.
- `Payloads`: the request bodies. `Decode` reads a body back into the message it carries.
- `WXRobot`: the robot, `_send`'s acceptance test, `read_file`, the image source choice, news validation, `sender`, and `sender` as written (see Findings).

Where the code and its own messages disagree, the model follows the code:

- The news check bounds the article count only from above (`len(articles) <= 8`), although its assertion message says 'Only support 1-8 articles' (trade_lib/weixin.py:127). An empty list is therefore accepted (`NewsAcceptsEmptyList`).
- `sender` ignores `msg_data` for news and image (trade_lib/weixin.py:152-158).
- A mapping or a string with no entries passes the news loop, because `len` is 0 and the loop does not run.
- A non-empty mapping or string fails at the first element, because its elements are strings and `.get` raises on them.

## Model

| member | source | states |
|---|---|---|
| `Json.Truthy` | trade_lib/weixin.py:129-130 | a loaded value is truthy if and only if it is none of the falsy values `None`, `False`, `0`, `""`, `[]`, `{}` |
| `Json.Present` | trade_lib/weixin.py:129-130 | the result of `article.get(key)` counts as given if and only if the key is bound to a value other than the six falsy ones |
| `Json.Lookup` | trade_lib/weixin.py:129-130 | `dict.get` yields `None` exactly when no binding has the key, and otherwise the value of the last binding of the key |
| `Base64.Encode` | trade_lib/weixin.py:101 | the encoding has 4 characters for every started group of 3 bytes |
| `Base64.TestVectors` | trade_lib/weixin.py:101 | the encoder reproduces the test vectors of section 10 of RFC 4648 and uses '+' and '/' for the values 62 and 63 |
| `Base64.DecodeEncode` | trade_lib/weixin.py:101 | decoding the Base64 text of any byte sequence gives back exactly that byte sequence |
| `Payloads.TextBody` | trade_lib/weixin.py:61-68 | the body's `msgtype` is "text" and it decodes to a text message whose content is the input, unchanged |
| `Payloads.MarkdownBody` | trade_lib/weixin.py:77-82 | the body's `msgtype` is "markdown" and it decodes to a markdown message whose content is the input, unchanged |
| `Payloads.ImageBody` | trade_lib/weixin.py:101-111 | the body's `msgtype` is "image"; its `base64` field decodes to exactly the image bytes, and its `md5` field is the digest of those same bytes |
| `Payloads.NewsBody` | trade_lib/weixin.py:131-136 | the body's `msgtype` is "news" and its `articles` are the input document, unchanged and in order |
| `WXRobot.NewRobot` | trade_lib/weixin.py:40-45 | the URL is the fixed webhook prefix followed by the key, character for character, and the key can be recovered from it; headers are the JSON content type; the proxy is the one given |
| `WXRobot.RobotUrlInjective` | trade_lib/weixin.py:41 | two robots have the same URL if and only if they were built from the same key |
| `WXRobot.Post` | trade_lib/weixin.py:47-49 | `_send` posts the body to the robot's URL with the robot's headers and proxy |
| `WXRobot.Accept` | trade_lib/weixin.py:50-53 | a reply is accepted if and only if its status is 200 and its JSON has `errmsg` equal to "ok"; a JSON reply with another status fails on the status; a reply that is not JSON fails before the status is looked at |
| `WXRobot.Given` | trade_lib/weixin.py:92 | an optional string argument counts as given if and only if it is neither `None` nor `""` (the test of `if local_file:` and `msg_data or …`) |
| `WXRobot.Exists` | trade_lib/weixin.py:141 | the empty path never exists |
| `WXRobot.ReadFile` | trade_lib/weixin.py:139-145 | an existing, readable path reads as the file's text; a path that does not exist (including "") reads as "" (not an error); an existing path that cannot be read raises; no path at all raises; a non-empty result always comes from an existing file |
| `WXRobot.ResolveContent` | trade_lib/weixin.py:149 | literal data that is present and non-empty is the content; otherwise the content is what `read_file` yields for the path |
| `WXRobot.ImageContent` | trade_lib/weixin.py:92-100 | a present, non-empty local file takes precedence over the remote URL, and a local file that cannot be read raises; the URL is used only when there is no local file; the missing-source error is raised if and only if neither is given |
| `WXRobot.SendImage` | trade_lib/weixin.py:92-112 | nothing is posted if and only if neither source is given or the local file cannot be read, and the error is then the source choice's; otherwise the posted body is built from the chosen bytes |
| `WXRobot.ImageDigestsAgree` | trade_lib/weixin.py:101-110 | in every image that is posted, `base64` decodes to the bytes that were read or fetched, and `md5` is their digest |
| `WXRobot.ArticleCheck` | trade_lib/weixin.py:129-130 | an article passes if and only if it is a dict with a present, truthy `title` and `url`; a non-dict fails on `.get`, a missing title fails before the url is looked at, and each error names that article |
| `WXRobot.CheckArticles` | trade_lib/weixin.py:128-130 | the loop passes if and only if every article is valid; when it fails, the error is that of the first invalid article, and all articles before it are valid |
| `WXRobot.Length` | trade_lib/weixin.py:127 | `len` is defined for lists, mappings and strings and raises for `None`, booleans and integers; a list's length is its number of articles |
| `WXRobot.ValidateNews` | trade_lib/weixin.py:127-130 | a list passes if and only if it has at most 8 articles and all are valid (an empty mapping or string also passes); more than 8 entries always fail on the count; a document without a length fails |
| `WXRobot.SendNews` | trade_lib/weixin.py:127-137 | the document is posted if and only if it validates, as the whole request `_send` makes for the news body, which carries the document unchanged; otherwise the validation error is raised |
| `WXRobot.NewsRejectsMoreThanEight` | trade_lib/weixin.py:127 | every list of more than 8 articles is refused on the count, whatever the articles hold |
| `WXRobot.NewsAcceptsEightValid` | trade_lib/weixin.py:127-130 | a list of exactly 8 valid articles is accepted |
| `WXRobot.NewsAcceptsEmptyList` | trade_lib/weixin.py:127 | the empty article list is accepted: there is no lower bound |
| `WXRobot.NewsFirstInvalidArticle` | trade_lib/weixin.py:128-130 | in a list within the bound, the first invalid article decides the error raised |
| `WXRobot.Sender` | trade_lib/weixin.py:147-158 | the corrected dispatcher, with `read_file` awaited. The call neither posts nor raises if and only if the type is not one of the four. Every post goes to the robot's URL with its headers and proxy. Text and markdown post exactly when content resolves, and the body carries the resolved content. Without a path, an image, news, and text or markdown without literal data all raise the missing-path error before anything is posted; a posted image is an image body. Posted news is a news document that validates. The lemmas `LiteralDataWins`, `FileFallback`, `ImagePathChoice`, `NewsFromFile` and `UnknownTypeSendsNothing` state each branch in full |
| `WXRobot.SenderAsWritten` | trade_lib/weixin.py:147-158 | as written, news is always refused, because `yaml.full_load` receives an unawaited coroutine |
| `WXRobot.Run` | trade_lib/weixin.py:147-158 | a call ends in a sent message if and only if the dispatcher posted a request and the reply to it is accepted; it neither posts nor raises if and only if the type is not one of the four |
| `WXRobot.LiteralDataWins` | trade_lib/weixin.py:148-151 | for text and markdown, present literal data is posted unchanged, and the result does not depend on the file system or the path |
| `WXRobot.FileFallback` | trade_lib/weixin.py:141-151 | for text and markdown without literal data, the file's text is posted, or "" when the path does not exist; an existing file that cannot be read raises |
| `WXRobot.ImagePathChoice` | trade_lib/weixin.py:152-156 | an existing image path is read as a local file, and raises if it cannot be read; any other non-empty path is fetched as a URL; an empty path is refused with the missing-source error |
| `WXRobot.NewsFromFile` | trade_lib/weixin.py:157-158 | news loads the file's text (or "") as YAML; a document that loads is posted, unchanged, if and only if it validates; a text that does not load, and an existing file that cannot be read, both raise; when `yaml.full_load("")` is `None`, a missing file is refused by `len(None)` |
| `WXRobot.UnknownTypeSendsNothing` | trade_lib/weixin.py:147-158 | a message type other than text, markdown, image and news posts nothing and raises nothing |
| `WXRobot.HelloWorld` | trade_lib/weixin.py:32 | `-t text -d "Hello world"` posts `{"msgtype": "text", "text": {"content": "Hello world"}}` to the key's URL; it succeeds on 200 with `errmsg` "ok" and fails on the status when the reply is 500 |
| `WXRobot.AsWrittenAgreesWithoutFile` | trade_lib/weixin.py:147-158 | wherever no file is read through `read_file`, the code as written behaves as the corrected model does |
| `WXRobot.AsWrittenLosesFileContent` | trade_lib/weixin.py:149-151 | for text and markdown with the file as the only source, the code as written always raises, while the corrected model posts whenever the file is missing or readable |

## Findings

| source | as written | input that shows it | evidently intended | confidence | as-written member | corrected member |
|---|---|---|---|---|---|---|
| trade_lib/weixin.py:149-158 | `self.read_file(...)` is called without `await`. The text and markdown fallback, and the news branch, therefore pass a coroutine object, not the file's text. The JSON encoder of the POST and `yaml.full_load` both raise on the coroutine. | `msg_type="text"`, `msg_data=None`, `msg_file_path` naming an existing file: nothing is sent and an exception is raised. Every `msg_type="news"` call behaves the same way. | Await `read_file` and send the file's text, or "" for a missing file | high; not executed | `WXRobot.SenderAsWritten`, `WXRobot.AsWrittenLosesFileContent` | `WXRobot.Sender`, `WXRobot.FileFallback`, `WXRobot.NewsFromFile` |

## Left out

- Assertions: the checks of `_send` and `send_news` are `assert` statements (trade_lib/weixin.py:51-52, 127-130). The model assumes assertions are enabled; `python -O` removes them, and then any JSON reply is accepted and no article check is made.
- HTTP transport. The aiohttp session, the POST and the image GET, proxy handling and network failures are not modelled. The POST is the `Request` value. The webhook's answer is a `Reply` supplied by a `respond` function. The GET is `Env.fetch`, which always yields bytes.
- The JSON text that aiohttp writes. Its escaping and separators are not modelled. Bodies are JSON trees, compared as trees.
- File I/O and `os.path.exists` are `Env` functions. Why a read fails (a directory, no permission, invalid UTF-8) is not modelled: every failed read is the one error `Unreadable`.
- MD5 (section 3 of RFC 1321) is the `Env.md5Hex` function; it is not computed.
- YAML parsing is `Env.loadYaml`, and `None` stands for a document that does not load. Loaded values that `Value` cannot hold are not modelled: floats, timestamps, binary, sets and mappings with non-string keys.
- A loaded mapping is a list of bindings, and `len` counts the bindings. A mapping with repeated keys (which PyYAML cannot produce) is not treated specially.
- The coroutine and asyncio machinery is not modelled. Its only effect on the payloads, the missing `await`, is modelled in `SenderAsWritten`.
- Python's default arguments (`msg_type="text"`, `proxy=None`) are not modelled: every argument is passed explicitly.
- The CLI `main` is not modelled: getopt parsing, the help text, printing and exit codes (trade_lib/weixin.py:161-204).
