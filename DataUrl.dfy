/**
 * The first step of calculate_image_hash: a data URL "<metadata>,<base64>"
 * is cut down to its payload with `split(",")[1]`, and the payload is handed
 * to the image decoder and hasher.
 */
module DataUrl {
  import opened Wrappers
  import opened Similarity

  /** The pieces of s between occurrences of sep, as str.split(sep) returns them. */
  function Split(s: string, sep: char): (parts: seq<string>)
    ensures |parts| >= 1
    ensures forall i :: 0 <= i < |parts| ==> sep !in parts[i]
    ensures sep in s ==> |parts| >= 2
  {
    if s == [] then [[]]
    else
      var rest := Split(s[1..], sep);
      if s[0] == sep then [[]] + rest
      else
        assert sep in s ==> sep in s[1..];
        [[s[0]] + rest[0]] + rest[1..]
  }

  /** The pieces glued back together with sep between them. */
  function Join(parts: seq<string>, sep: char): string
  {
    if parts == [] then []
    else if |parts| == 1 then parts[0]
    else parts[0] + [sep] + Join(parts[1..], sep)
  }

  /** Splitting loses nothing: joining the pieces gives the original text back. */
  lemma {:induction false} JoinSplit(s: string, sep: char)
    ensures Join(Split(s, sep), sep) == s
  {
    if s != [] {
      var rest := Split(s[1..], sep);
      JoinSplit(s[1..], sep);
      if s[0] == sep {
        assert [s[0]] + s[1..] == s;
      } else {
        var p := [[s[0]] + rest[0]] + rest[1..];
        assert p[1..] == rest[1..];
        if |rest| == 1 {
          assert Join(p, sep) == [s[0]] + rest[0];
          assert [s[0]] + s[1..] == s;
        } else {
          assert Join(rest, sep) == rest[0] + [sep] + Join(rest[1..], sep);
          assert Join(p, sep) == [s[0]] + rest[0] + [sep] + Join(rest[1..], sep);
          assert [s[0]] + s[1..] == s;
        }
      }
    }
  }

  /** Text before the first separator is the first piece; the rest is split further. */
  lemma {:induction false} SplitAfterField(p: string, sep: char, x: string)
    requires sep !in p
    ensures Split(p + [sep] + x, sep) == [p] + Split(x, sep)
  {
    if p == [] {
      assert ([] + [sep] + x)[1..] == x;
    } else {
      assert (p + [sep] + x)[1..] == p[1..] + [sep] + x;
      SplitAfterField(p[1..], sep, x);
      assert [p[0]] + p[1..] == p;
    }
  }

  /** A field followed by nothing or by the separator is the first piece. */
  lemma {:induction false} SplitFirstField(p: string, sep: char, rest: string)
    requires sep !in p
    requires rest == [] || rest[0] == sep
    ensures Split(p + rest, sep)[0] == p
  {
    if p == [] {
      assert [] + rest == rest;
    } else {
      assert (p + rest)[1..] == p[1..] + rest;
      SplitFirstField(p[1..], sep, rest);
      assert [p[0]] + p[1..] == p;
    }
  }

  /** The url with any data-URL prefix removed (server.py: `split(",")[1]`). */
  function StripDataUrlPrefix(url: string): (payload: string)
    ensures ',' !in url ==> payload == url
    ensures ',' in url ==> ',' !in payload && |payload| < |url|
  {
    if ',' in url then
      var parts := Split(url, ',');
      SplitLength(url, ',');
      JoinSplit(url, ',');
      parts[1]
    else url
  }

  /** Every piece is shorter than the text when there is at least one separator. */
  lemma SplitLength(s: string, sep: char)
    requires sep in s
    ensures forall i :: 0 <= i < |Split(s, sep)| ==> |Split(s, sep)[i]| < |s|
  {
    var parts := Split(s, sep);
    forall i | 0 <= i < |parts|
      ensures |parts[i]| < |s|
    {
      JoinSplit(s, sep);
      JoinedPieceShorter(parts, sep, i);
    }
  }

  lemma {:induction false} JoinedPieceShorter(parts: seq<string>, sep: char, i: nat)
    requires |parts| >= 2 && i < |parts|
    ensures |parts[i]| < |Join(parts, sep)|
  {
    if i > 0 && |parts| > 2 {
      JoinedPieceShorter(parts[1..], sep, i - 1);
    } else if i > 0 {
      assert Join(parts[1..], sep) == parts[1];
    } else if |parts| > 2 {
      JoinedPieceShorter(parts[1..], sep, 0);
    } else {
      assert Join(parts[1..], sep) == parts[1];
    }
  }

  /**
   * The payload is the text between the first and the second comma: a
   * metadata prefix is dropped, and so is everything from a second comma on.
   */
  lemma StripKeepsSecondField(meta: string, payload: string, rest: string)
    requires ',' !in meta && ',' !in payload
    requires rest == [] || rest[0] == ','
    ensures StripDataUrlPrefix(meta + [','] + payload + rest) == payload
  {
    var url := meta + [','] + payload + rest;
    assert url == meta + [','] + (payload + rest);
    assert url[|meta|] == ',';
    SplitAfterField(meta, ',', payload + rest);
    SplitFirstField(payload, ',', rest);
  }

  /**
   * calculate_image_hash: strip the prefix, then decode and hash. The base64
   * decoder, the image decoder and the average hash are the parameter
   * `decode`, which yields None where any of them raises.
   */
  function CalculateImageHash(url: string, decode: string -> Option<Fingerprint>): Option<Fingerprint>
  {
    decode(StripDataUrlPrefix(url))
  }

  /** A data URL and its bare base64 payload are fingerprinted alike. */
  lemma DataUrlHashedAsPayload(meta: string, payload: string, decode: string -> Option<Fingerprint>)
    requires ',' !in meta && ',' !in payload
    ensures CalculateImageHash(meta + [','] + payload, decode) == CalculateImageHash(payload, decode)
  {
    assert meta + [','] + payload == meta + [','] + payload + [];
    StripKeepsSecondField(meta, payload, []);
  }
}
