# ClickCam proxy: the deduplication core in Dafny

ClickCam puts an HTTP proxy in front of a vision-language model server. Clients
POST chat-completion requests that embed an image. The proxy fingerprints the
image with a 64-bit average hash. When the fingerprint is within Hamming distance
4 of the one it stored last, it replies with the stored response and does not
call the model again. Otherwise it forwards the request, stores the new hash and
response, and appends the answer text to an event table.

This project models that decision path from `server.py`:

- `Similarity.dfy`: fingerprints as 64-bit boolean patterns, Hamming distance,
  and the gate `images_are_similar` with `HASH_THRESHOLD = 5`.
- `DataUrl.dfy`: `str.split` and the data-URL prefix strip `split(",")[1]` of
  `calculate_image_hash`. The decoder and hasher are a function parameter.
- `Escaping.dfy`: the quote doubling in `EventStore.add_event`, plus a model of
  how the storage engine reads a single-quoted literal (see Findings).
- `Extraction.dfy`: the nested `for`/`break` scan over `messages[*].content[*]`,
  as a method with loops proved against a specification function.
- `Proxy.dfy`: the two globals `last_image_hash` and `last_response` as fields of
  class `ProxyServer`. `HandleChatCompletion` is `do_POST` step by step. `Decide`
  and `Handle` are the pure functions it is proved against, and the lemmas state
  the cache's behaviour in terms of them.
- `Wrappers.dfy`: `Option` and `Result`.

A few behaviours of the code are easy to overlook; the model follows the code:

- A payload that does not decode as an image is not an error in the code.
  `calculate_image_hash` returns None and the request is forwarded. The stored
  hash becomes None, so the next request misses too (`Proxy.UndecodableNeverHits`).
- The stored hash is replaced before the backend is called, and the response only
  after the call returns. A failed call therefore leaves the new hash paired with
  the old response (`Proxy.FailedForwardKeepsOldResponse`).
- A hit does not refresh the stored hash. New images are compared with the last
  image that caused a forward, not with the immediately preceding request
  (`Proxy.ComparedWithLastForwardedImage`).
- The backend's body is stored before its answer text is read. A body without
  `choices[0].message.content` is cached even though the client gets a 500
  (`Proxy.UnreadableAnswerStillStored`).
- An empty stored response (`b""`) is falsy in Python, so a similar image falls
  through to the backend (`Proxy.EmptyResponseFallsThrough`).
- An answer `choices[0].message.content` that is not a string (JSON `null`, say)
  makes `add_event` raise on `replace`, which it swallows. The client still gets
  200 with the body, and no event is recorded (`Proxy.NonTextAnswerNotLogged`).

The event table is represented by the ghost field `ProxyServer.events`: the answer
texts handed to `add_event`, oldest first. The table receives exactly these
contents under the corrected escaping `Escaping.EscapeLiteral`
(`Escaping.EscapeLiteralRoundTrip`); as written, some of them are lost (see
Findings). The backend calls are the ghost field `ProxyServer.forwarded`: the
request bodies of the forward attempts, verbatim, including attempts whose
connection fails.

## Model

| member | source | states |
|---|---|---|
| Similarity.Hamming | server.py:123 | the distance between two fingerprints is at most their width, and it is 0 exactly when they are equal |
| Similarity.HammingSymmetric | server.py:123 | the distance from a to b equals the distance from b to a |
| Similarity.SimilarIff | server.py:117-126 | the gate holds exactly when both hashes are present and their distance is below 5 |
| Similarity.AbsentNeverSimilar | server.py:119-120 | an absent hash on either side makes the gate false |
| Similarity.SimilarSymmetric | server.py:117-126 | the gate gives the same verdict with its arguments swapped |
| Similarity.SimilarReflexive | server.py:123-126 | every fingerprint is at distance 0 from itself and passes the gate against itself |
| Similarity.ThresholdBoundary | server.py:126 | every fingerprint has a neighbour at distance 4, which passes the strict threshold, and one at distance 5, which fails it |
| Similarity.SimilarityNotTransitive | server.py:123-126 | two images can each be similar to a third yet be 6 bits apart, so not similar to each other |
| DataUrl.Split | server.py:104 | `str.split` gives at least one piece, no piece contains the separator, and a separator in the text gives at least two pieces |
| DataUrl.JoinSplit | server.py:104 | joining the pieces with the separator gives the original text back |
| DataUrl.StripDataUrlPrefix | server.py:103-104 | a url without a comma is unchanged; with a comma the result has no comma and is shorter |
| DataUrl.StripKeepsSecondField | server.py:103-104 | for `meta,payload` followed by nothing or by `,...`, the result is exactly the payload between the first and second comma |
| DataUrl.DataUrlHashedAsPayload | server.py:99-111 | a data URL and its bare payload get the same fingerprint |
| Escaping.EscapeLength | server.py:70 | the escaped text is longer than the input by the number of quotes in it |
| Escaping.EscapeKeepsOtherCharacters | server.py:70 | every character other than a quote, backslashes included, occurs as often after escaping as before |
| Escaping.EscapedQuotesPaired | server.py:70 | the escaped text consists of doubled quotes and non-quote characters |
| Escaping.EscapedHasNoLoneQuote | server.py:70 | every quote in the escaped text has a quote right before or right after it |
| Escaping.CollapseEscape | server.py:70 | replacing `''` by `'` in the escaped text recovers the input |
| Escaping.EscapeCollapse | server.py:70 | conversely, every paired text is the escaping of its collapse, so escaping is a bijection onto paired texts |
| Escaping.EscapeQuotesRoundTrip | server.py:68-71 | for content without a backslash, the literal built by add_event reads back as that content |
| Escaping.TrailingBackslashUnterminated | server.py:68-71 | content `\` produces a literal whose closing quote is escaped, so the string never ends |
| Escaping.BackslashSequenceAltered | server.py:70 | content `a\n` (backslash, letter n) is read back as `a` and a newline |
| Escaping.EscapeLiteralRoundTrip | server.py:68-71 | with quotes and backslashes both doubled, every content reads back exactly, followed by the rest of the statement |
| Escaping.EscapeLiteralAgrees | server.py:70 | on content without a backslash the corrected escaping equals the one written |
| Extraction.FirstImageSpec | server.py:220-226 | a message's first image item is absent exactly when no item is an image, and otherwise it sits at an index with no image item before it |
| Extraction.FirstImageAt | server.py:220-226 | the first image item is the one at the least index that holds an image |
| Extraction.FindImageSuccess | server.py:218-231 | the scan yields url u exactly when some message's first image item holds the non-empty u and every earlier message has no image item or an empty url |
| Extraction.ExtractImageUrl | server.py:218-231 | the nested loop with its breaks computes the scan: the url, `NoImageData` (raised at line 231) or `MissingUrl` (the lookup at line 225 raising); a found url is non-empty |
| Proxy.ProxyServer.constructor | server.py:29-30 | both globals start as None; the event table keeps what it already holds |
| Proxy.ProxyServer.HandleChatCompletion | server.py:213-273 | the reply, the new globals, the contents handed to add_event and the forward attempts are those of `Handle` on the old globals |
| Proxy.HitRepliesStoredBytes | server.py:238-248 | on a hit the reply is the stored response byte for byte, nothing is forwarded or appended, and both globals are unchanged |
| Proxy.CachedIffHit | server.py:238-248 | a cached reply is given exactly when a stored hash is present, the current hash is within distance 4 of it, and the stored response is non-empty |
| Proxy.EmptyResponseFallsThrough | server.py:238-253 | a similar image with no or an empty stored response is forwarded and its hash stored |
| Proxy.MissRecordsAnswer | server.py:253-283 | a miss answered by the backend stores the current hash and the body, returns the body, and appends exactly its answer |
| Proxy.FailedForwardKeepsOldResponse | server.py:253-266 | a miss whose forward fails stores the new hash beside the old response, appends nothing and replies 500 |
| Proxy.MissAlwaysForwards | server.py:249-264 | whatever the backend does, a miss forwards the request, stores the current hash and gives no cached reply |
| Proxy.DissimilarImageForwarded | server.py:238-264 | an image at distance 5 or more from the stored one is always forwarded and its hash stored |
| Proxy.UnreadableAnswerStillStored | server.py:263-273 | a backend body without readable answer text is stored beside the current hash, nothing is appended, and the reply is 500 |
| Proxy.NonTextAnswerNotLogged | server.py:263-283 | an answer that is not a string is stored and returned with 200, and no event is recorded (add_event swallows its own error) |
| Proxy.LoggedIffForwardedReply | server.py:263-283 | at most one event per request; one is appended exactly when the reply is the backend's body and its answer is text, it is that answer, and nothing is appended without a forward |
| Proxy.UndecodableNeverHits | server.py:234-253 | an undecodable image never hits, is forwarded, stores None as the hash, and the request after it cannot hit |
| Proxy.RejectedRequestHasNoEffect | server.py:213-231 | a request that does not parse or has no usable image leaves the globals alone, forwards nothing, appends nothing and replies 500 |
| Proxy.HitLeavesNoTrace | server.py:238-253 | after a hit the next request is decided exactly as if the hit had not happened |
| Proxy.SameImageHitsAfterForward | server.py:238-266 | after an answered forward with a non-empty body, the same image again is a hit on that body |
| Proxy.ComparedWithLastForwardedImage | server.py:238-253 | after a forward for h, an image 3 bits from h hits, and an image 3 bits from that one misses and becomes the stored hash |

## Findings

| source | as written | input that shows it | evidently intended | confidence | as-written member | corrected member |
|---|---|---|---|---|---|---|
| server.py:70 | `content.replace("'", "''")` doubles quotes only. The literal is read by an engine where a backslash escapes the next character. | Content `\` gives `'\'`: the closing quote is escaped and the INSERT fails, so the event is lost. Content `a\n` (backslash, n) is stored with a newline. | Escape backslashes as well as quotes, so that every content is stored as it is. | medium: relies on ClickHouse's documented backslash escapes; not executed | Escaping.TrailingBackslashUnterminated | Escaping.EscapeLiteralRoundTrip |

## Left out

- Fingerprint computation: `base64.b64decode`, `PIL.Image.open` and `imagehash.average_hash` are foreign libraries. They are the parameter `decode` of `DataUrl.CalculateImageHash`, which returns None where any of them raises.
- The similarity score `1 - distance/64` and every log line: floating point, used only for logging.
- HTTP plumbing: `do_GET` and `/events`, `do_OPTIONS`, the 404 branches, CORS headers, `Content-Length` and reading the body. The model starts from the parsed request.
- JSON: the request is given as its raw body and its parsed messages, with None for a body `json.loads` rejects. A message that is not an object (where `.get` raises) and an image url that is not a string are not modelled. Content given as a plain string is iterated character by character in the source, which the model represents as `Other` items.
- The backend call (`urllib.request`) is network I/O. It is the parameter `BackendOutcome`, consulted only on a miss.
- The event table: schema creation, `get_recent_events` with its `ORDER BY timestamp DESC LIMIT`, `close`, the uuid and the wall-clock timestamp. These are storage-engine internals and nondeterministic values. The model keeps only the sequence of appended contents.
- add_event swallows storage errors and keeps going, so a failed INSERT loses an event silently. The model records every append; the one failure it does expose is the escaping finding above.
- `Escaping.ReadLiteral` models the escapes `\n \t \r \0 \b \f \a \v` and `\c` for any other c. It does not model `\xHH`, which the corrected escaping never produces.
- Process supervision: `monitor_output` (a thread, `select`, pipes), `wait_for_port` (sockets, a clock) and `start_llama_server`, `start_proxy_server` and the main block (subprocesses, signals, `sys.exit`).
- Concurrency: `HTTPServer` serves one request at a time, so requests are modelled as sequential calls.
