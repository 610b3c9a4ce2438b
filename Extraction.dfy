/**
 * Finding the image in a chat-completion request: the nested scan of
 * `messages[*].content[*]` in ProxyHandler.do_POST.
 */
module Extraction {
  import opened Wrappers

  /**
   * One item of a message's content list. ImageUrl is an object whose "type"
   * is "image_url"; its url is None when `item["image_url"]["url"]` is
   * missing. Other is every other item (text parts, non-objects).
   */
  datatype Content = ImageUrl(url: Option<string>) | Other

  datatype ExtractError =
    | NoImageData   // no message yields a non-empty url
    | MissingUrl    // an image item without `["image_url"]["url"]`: the lookup raises

  /** The url field of the first image item of a message, if it has one. */
  function FirstImage(message: seq<Content>): Option<Option<string>>
  {
    if message == [] then None
    else if message[0].ImageUrl? then Some(message[0].url)
    else FirstImage(message[1..])
  }

  /** FirstImage finds the item at the least index that holds an image, and nothing when none does. */
  lemma {:induction false} FirstImageSpec(message: seq<Content>)
    ensures FirstImage(message).None? <==> forall j :: 0 <= j < |message| ==> !message[j].ImageUrl?
    ensures FirstImage(message).Some? ==>
              exists j :: 0 <= j < |message| && message[j] == ImageUrl(FirstImage(message).value) &&
                          forall k :: 0 <= k < j ==> !message[k].ImageUrl?
  {
    if message != [] && !message[0].ImageUrl? {
      var tail := message[1..];
      FirstImageSpec(tail);
      assert forall j :: 1 <= j < |message| ==> message[j] == tail[j - 1];
      var r := FirstImage(tail);
      if r.Some? {
        var j :| 0 <= j < |tail| && tail[j] == ImageUrl(r.value) &&
                 forall k :: 0 <= k < j ==> !tail[k].ImageUrl?;
        assert message[j + 1] == ImageUrl(r.value);
        assert forall k :: 0 <= k < j + 1 ==> !message[k].ImageUrl? by {
          forall k | 0 <= k < j + 1 ensures !message[k].ImageUrl? {
            if k > 0 { assert message[k] == tail[k - 1]; }
          }
        }
      }
    }
  }

  /** The first image item is the one found at the first index holding an image. */
  lemma FirstImageAt(message: seq<Content>, j: nat)
    requires j < |message| && message[j].ImageUrl?
    requires forall k :: 0 <= k < j ==> !message[k].ImageUrl?
    ensures FirstImage(message) == Some(message[j].url)
  {
    FirstImageSpec(message);
    var r := FirstImage(message);
    var i :| 0 <= i < |message| && message[i] == ImageUrl(r.value) &&
             forall k :: 0 <= k < i ==> !message[k].ImageUrl?;
    assert !(i < j) && !(j < i);
  }

  /**
   * What the scan yields: messages are visited in order; within one, only the
   * first image item is read; its url is taken when it is non-empty, and an
   * empty one makes the scan go on with the next message.
   */
  function FindImage(messages: seq<seq<Content>>): Result<string, ExtractError>
  {
    if messages == [] then Failure(NoImageData)
    else match FirstImage(messages[0])
      case None => FindImage(messages[1..])
      case Some(None) => Failure(MissingUrl)
      case Some(Some(u)) => if u != [] then Success(u) else FindImage(messages[1..])
  }

  /** A message the scan passes over: it has no image item, or its first one has an empty url. */
  predicate PassedOver(message: seq<Content>)
  {
    FirstImage(message) == None || FirstImage(message) == Some(Some([]))
  }

  /**
   * The scan finds url u exactly when some message's first image item holds u,
   * u is non-empty, and every earlier message is passed over.
   */
  lemma {:induction false} FindImageSuccess(messages: seq<seq<Content>>, u: string)
    ensures FindImage(messages) == Success(u) <==>
            exists i :: 0 <= i < |messages| && FirstImage(messages[i]) == Some(Some(u)) && u != [] &&
                        forall k :: 0 <= k < i ==> PassedOver(messages[k])
  {
    if messages != [] {
      FindImageSuccess(messages[1..], u);
      var tail := messages[1..];
      assert forall i :: 1 <= i < |messages| ==> messages[i] == tail[i - 1];
      if FindImage(messages) == Success(u) {
        if FirstImage(messages[0]) != Some(Some(u)) {
          var i :| 0 <= i < |tail| && FirstImage(tail[i]) == Some(Some(u)) && u != [] &&
                   forall k :: 0 <= k < i ==> PassedOver(tail[k]);
          assert FirstImage(messages[i + 1]) == Some(Some(u));
          assert forall k :: 0 <= k < i + 1 ==> PassedOver(messages[k]) by {
            forall k | 0 <= k < i + 1 ensures PassedOver(messages[k]) {
              if k > 0 { assert messages[k] == tail[k - 1]; }
            }
          }
        }
      }
    }
  }

  /**
   * The scan of server.py: an outer loop over messages and an inner loop over
   * their content items, each left with `break` as soon as it has its answer.
   */
  method ExtractImageUrl(messages: seq<seq<Content>>) returns (r: Result<string, ExtractError>)
    ensures r == FindImage(messages)
    ensures r.Success? ==> r.value != []
  {
    var imageData: string := [];
    var i := 0;
    while i < |messages|
      invariant 0 <= i <= |messages|
      invariant imageData == []
      invariant FindImage(messages) == FindImage(messages[i..])
    {
      var message := messages[i];
      assert messages[i..][0] == message && messages[i..][1..] == messages[i + 1..];
      var j := 0;
      while j < |message|
        invariant 0 <= j <= |message|
        invariant imageData == []
        invariant forall k :: 0 <= k < j ==> !message[k].ImageUrl?
      {
        if message[j].ImageUrl? {
          FirstImageAt(message, j);
          if message[j].url.None? {
            return Failure(MissingUrl);
          }
          imageData := message[j].url.value;
          break;
        }
        j := j + 1;
      }
      FirstImageSpec(message);
      if imageData != [] {
        break;
      }
      i := i + 1;
    }
    if imageData == [] {
      r := Failure(NoImageData);
    } else {
      r := Success(imageData);
    }
  }
}
