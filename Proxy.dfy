/**
 * The chat-completion handler of the proxy: the single-slot response cache
 * (server.py's globals last_image_hash and last_response), the similarity
 * decision, the forward to the backend and the event append.
 */
module Proxy {
  import opened Wrappers
  import opened Similarity
  import opened DataUrl
  import opened Extraction

  type Bytes = seq<bv8>

  /** The two globals the handler consults and updates. */
  datatype CacheSlot = CacheSlot(hash: Option<Fingerprint>, response: Option<Bytes>)

  /**
   * The inbound request: its raw body, forwarded verbatim, and its messages
   * as parsed from it, None when the body is not a JSON object.
   */
  datatype ChatRequest = ChatRequest(body: Bytes, messages: Option<seq<seq<Content>>>)

  /**
   * What the backend call would come back with. Unreachable means urlopen
   * raised. Answered carries the raw body and what `choices[0].message.content`
   * turns out to be.
   */
  datatype BackendOutcome = Unreachable | Answered(body: Bytes, answer: Answer)

  datatype Answer =
    | Text(content: string)  // a string: handed to add_event
    | NonText                // present but not a string (null, a number, ...): add_event raises and swallows it
    | Missing                // the body does not parse or lacks the path: the lookup raises

  datatype ErrorKind =
    | MalformedRequest       // json.loads of the request failed
    | NoImage                // "No image data found in request"
    | MissingImageUrl        // an image item without ["image_url"]["url"]
    | BackendUnavailable     // the forward raised
    | MalformedBackendReply  // the answer text could not be read from the backend's body

  datatype Reply =
    | Cached(body: Bytes)      // 200 with the stored response
    | Forwarded(body: Bytes)   // 200 with the backend's body
    | ServerError(kind: ErrorKind)

  /** The effect of one request: new slot, reply, whether the backend was called, events appended. */
  datatype Effect = Effect(slot: CacheSlot, reply: Reply, forwarded: bool, logged: seq<string>)

  function Status(reply: Reply): nat
  {
    if reply.ServerError? then 500 else 200
  }

  /** A hit: a stored hash similar to the current one, and a non-empty stored response. */
  predicate IsHit(slot: CacheSlot, current: Option<Fingerprint>)
  {
    slot.hash.Some? && ImagesAreSimilar(slot.hash, current) &&
    slot.response.Some? && slot.response.value != []
  }

  /**
   * Lines 238-273: on a hit reply with the stored bytes and touch nothing;
   * otherwise store the current hash, call the backend, store its body, and
   * append its answer when it is text.
   */
  function Decide(slot: CacheSlot, current: Option<Fingerprint>, backend: BackendOutcome): Effect
  {
    if IsHit(slot, current) then Effect(slot, Cached(slot.response.value), false, [])
    else
      match backend
      case Unreachable =>
        Effect(CacheSlot(current, slot.response), ServerError(BackendUnavailable), true, [])
      case Answered(body, Missing) =>
        Effect(CacheSlot(current, Some(body)), ServerError(MalformedBackendReply), true, [])
      case Answered(body, NonText) =>
        Effect(CacheSlot(current, Some(body)), Forwarded(body), true, [])
      case Answered(body, Text(answer)) =>
        Effect(CacheSlot(current, Some(body)), Forwarded(body), true, [answer])
  }

  /** Lines 213-273: parse, find the image, fingerprint it, decide. */
  function Handle(slot: CacheSlot, request: ChatRequest, decode: string -> Option<Fingerprint>,
                  backend: BackendOutcome): Effect
  {
    match request.messages
    case None => Effect(slot, ServerError(MalformedRequest), false, [])
    case Some(messages) =>
      match FindImage(messages)
      case Failure(NoImageData) => Effect(slot, ServerError(NoImage), false, [])
      case Failure(MissingUrl) => Effect(slot, ServerError(MissingImageUrl), false, [])
      case Success(url) => Decide(slot, CalculateImageHash(url, decode), backend)
  }

  /**
   * The proxy's request-handling state. The two globals are fields; the
   * event table and the backend are represented by what was appended to
   * them and what was sent to it.
   */
  class ProxyServer {
    var lastImageHash: Option<Fingerprint>
    var lastResponse: Option<Bytes>
    ghost var events: seq<string>      // contents handed to add_event, oldest first
    ghost var forwarded: seq<Bytes>    // request bodies of the forward attempts, oldest first

    /** At start both globals are None; the event table keeps what earlier runs stored. */
    constructor (ghost stored: seq<string>)
      ensures lastImageHash == None && lastResponse == None
      ensures events == stored && forwarded == []
    {
      lastImageHash := None;
      lastResponse := None;
      events := stored;
      forwarded := [];
    }

    ghost function Slot(): CacheSlot
      reads this
    {
      CacheSlot(lastImageHash, lastResponse)
    }

    /** ProxyHandler.do_POST on /v1/chat/completions, step by step. */
    method HandleChatCompletion(request: ChatRequest, decode: string -> Option<Fingerprint>,
                                backend: BackendOutcome) returns (reply: Reply)
      modifies this
      ensures var e := Handle(old(Slot()), request, decode, backend);
              reply == e.reply && Slot() == e.slot && events == old(events) + e.logged &&
              forwarded == old(forwarded) + (if e.forwarded then [request.body] else [])
    {
      if request.messages.None? {
        return ServerError(MalformedRequest);
      }
      var found := ExtractImageUrl(request.messages.value);
      if found.Failure? {
        return ServerError(if found.error == NoImageData then NoImage else MissingImageUrl);
      }
      var currentHash := CalculateImageHash(found.value, decode);
      if lastImageHash.Some? && ImagesAreSimilar(lastImageHash, currentHash) {
        if lastResponse.Some? && lastResponse.value != [] {
          return Cached(lastResponse.value);
        }
      }
      // The hash is replaced before the backend is called ...
      lastImageHash := currentHash;
      forwarded := forwarded + [request.body];
      match backend {
        case Unreachable =>
          reply := ServerError(BackendUnavailable);
        case Answered(body, answer) =>
          // ... and the response only once the call has returned.
          lastResponse := Some(body);
          if answer.Missing? {
            return ServerError(MalformedBackendReply);
          }
          if answer.Text? {
            events := events + [answer.content];
          }
          reply := Forwarded(body);
      }
    }
  }

  /** A hit replies with the stored bytes, calls nothing, appends nothing, changes nothing. */
  lemma HitRepliesStoredBytes(slot: CacheSlot, current: Option<Fingerprint>, backend: BackendOutcome)
    requires slot.hash.Some? && ImagesAreSimilar(slot.hash, current)
    requires slot.response.Some? && slot.response.value != []
    ensures Decide(slot, current, backend) == Effect(slot, Cached(slot.response.value), false, [])
  {
  }

  /** A cached reply is given exactly on a hit. */
  lemma CachedIffHit(slot: CacheSlot, current: Option<Fingerprint>, backend: BackendOutcome)
    ensures Decide(slot, current, backend).reply.Cached? <==>
            slot.hash.Some? && current.Some? && Hamming(slot.hash.value, current.value) < HashThreshold &&
            slot.response.Some? && slot.response.value != []
  {
  }

  /** A similar image with no stored or an empty stored response falls through to the backend. */
  lemma EmptyResponseFallsThrough(slot: CacheSlot, current: Option<Fingerprint>, backend: BackendOutcome)
    requires ImagesAreSimilar(slot.hash, current)
    requires slot.response == None || slot.response == Some([])
    ensures var e := Decide(slot, current, backend);
            e.forwarded && e.slot.hash == current && !e.reply.Cached?
  {
  }

  /** A miss that gets an answer: new hash, the backend's body stored and returned, one event. */
  lemma MissRecordsAnswer(slot: CacheSlot, current: Option<Fingerprint>, body: Bytes, answer: string)
    requires !IsHit(slot, current)
    ensures Decide(slot, current, Answered(body, Text(answer))) ==
            Effect(CacheSlot(current, Some(body)), Forwarded(body), true, [answer])
  {
  }

  /** A failed forward leaves the new hash paired with the old response, and appends nothing. */
  lemma FailedForwardKeepsOldResponse(slot: CacheSlot, current: Option<Fingerprint>)
    requires !IsHit(slot, current)
    ensures var e := Decide(slot, current, Unreachable);
            e.slot == CacheSlot(current, slot.response) && e.forwarded && e.logged == [] &&
            Status(e.reply) == 500
  {
  }

  /** Whatever the backend does, a miss forwards the request and stores the current hash first. */
  lemma MissAlwaysForwards(slot: CacheSlot, current: Option<Fingerprint>, backend: BackendOutcome)
    requires !IsHit(slot, current)
    ensures var e := Decide(slot, current, backend);
            e.forwarded && e.slot.hash == current && !e.reply.Cached?
  {
  }

  /** An image at distance 5 or more from the stored one always reaches the backend. */
  lemma DissimilarImageForwarded(slot: CacheSlot, current: Fingerprint, backend: BackendOutcome)
    requires slot.hash.Some? && Hamming(slot.hash.value, current) >= HashThreshold
    ensures var e := Decide(slot, Some(current), backend);
            e.forwarded && e.slot.hash == Some(current) && !e.reply.Cached?
  {
  }

  /** A backend body without readable answer text is still stored, but the client gets a 500. */
  lemma UnreadableAnswerStillStored(slot: CacheSlot, current: Option<Fingerprint>, body: Bytes)
    requires !IsHit(slot, current)
    ensures var e := Decide(slot, current, Answered(body, Missing));
            e.forwarded && e.slot == CacheSlot(current, Some(body)) && e.logged == [] &&
            Status(e.reply) == 500
  {
  }

  /** An answer that is not a string is stored and returned with 200, but no event is recorded. */
  lemma NonTextAnswerNotLogged(slot: CacheSlot, current: Option<Fingerprint>, body: Bytes)
    requires !IsHit(slot, current)
    ensures Decide(slot, current, Answered(body, NonText)) ==
            Effect(CacheSlot(current, Some(body)), Forwarded(body), true, [])
  {
  }

  /**
   * An event is appended exactly when the backend's body is returned and its
   * answer is text; it is that answer, and never comes without a forward.
   */
  lemma LoggedIffForwardedReply(slot: CacheSlot, request: ChatRequest,
                                decode: string -> Option<Fingerprint>, backend: BackendOutcome)
    ensures var e := Handle(slot, request, decode, backend);
            |e.logged| <= 1 && (e.logged != [] ==> e.forwarded) &&
            (e.logged != [] <==> e.reply.Forwarded? && backend.answer.Text?) &&
            (e.reply.Forwarded? ==> backend.Answered? && e.reply.body == backend.body) &&
            (e.logged != [] ==> e.logged == [backend.answer.content])
  {
  }

  /**
   * An undecodable image (no fingerprint) never hits; it stores None as the
   * hash, so the request after it cannot hit either.
   */
  lemma UndecodableNeverHits(slot: CacheSlot, backend: BackendOutcome, next: Option<Fingerprint>,
                             nextBackend: BackendOutcome)
    ensures var e := Decide(slot, None, backend);
            !e.reply.Cached? && e.forwarded && e.slot.hash == None &&
            !Decide(e.slot, next, nextBackend).reply.Cached?
  {
  }

  /** A request the handler rejects before the cache leaves slot, backend and event table alone. */
  lemma RejectedRequestHasNoEffect(slot: CacheSlot, request: ChatRequest,
                                   decode: string -> Option<Fingerprint>, backend: BackendOutcome)
    requires request.messages == None || FindImage(request.messages.value).Failure?
    ensures var e := Handle(slot, request, decode, backend);
            e.slot == slot && !e.forwarded && e.logged == [] && Status(e.reply) == 500
  {
  }

  /** A hit is invisible to later requests: the next one is decided as if it had not happened. */
  lemma HitLeavesNoTrace(slot: CacheSlot, current: Option<Fingerprint>, backend: BackendOutcome,
                         next: Option<Fingerprint>, nextBackend: BackendOutcome)
    requires IsHit(slot, current)
    ensures Decide(Decide(slot, current, backend).slot, next, nextBackend) == Decide(slot, next, nextBackend)
  {
  }

  /** The same image again after an answered forward with a non-empty body is a hit on that body. */
  lemma SameImageHitsAfterForward(slot: CacheSlot, h: Fingerprint, body: Bytes, answer: string,
                                  nextBackend: BackendOutcome)
    requires !IsHit(slot, Some(h)) && body != []
    ensures var e := Decide(slot, Some(h), Answered(body, Text(answer)));
            Decide(e.slot, Some(h), nextBackend) == Effect(e.slot, Cached(body), false, [])
  {
    SimilarReflexive(h);
  }

  /**
   * New requests are compared with the last image that caused a forward, not
   * with the one just before: after a forward for h, an image 3 bits from h
   * hits, and an image 3 bits from that one (6 from h) misses.
   */
  lemma ComparedWithLastForwardedImage(h: Fingerprint, stored: Bytes, backend: BackendOutcome,
                                       nextBackend: BackendOutcome)
    requires stored != []
    ensures var near, far := FlipFirst(h, 3), FlipFirst(h, 6);
            var first := Decide(CacheSlot(Some(h), Some(stored)), Some(near), backend);
            var second := Decide(first.slot, Some(far), nextBackend);
            first.reply == Cached(stored) && ImagesAreSimilar(Some(near), Some(far)) &&
            !second.reply.Cached? && second.forwarded && second.slot.hash == Some(far)
  {
    SimilarityNotTransitive(h);
  }
}
