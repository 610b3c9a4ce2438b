/**
 * EventStore.add_event splices the answer text into an INSERT statement as a
 * single-quoted literal, doubling every single quote and nothing else.
 */
module Escaping {
  import opened Wrappers

  const Quote: char := '\''
  const Backslash: char := '\\'

  /** Occurrences of c in s. */
  function Count(c: char, s: string): nat
  {
    if s == [] then 0 else (if s[0] == c then 1 else 0) + Count(c, s[1..])
  }

  /** `content.replace("'", "''")`. */
  function EscapeQuotes(s: string): (r: string)
  {
    if s == [] then []
    else (if s[0] == Quote then [Quote, Quote] else [s[0]]) + EscapeQuotes(s[1..])
  }

  /** `r.replace("''", "'")`: each pair of quotes, left to right, becomes one. */
  function CollapseQuotes(r: string): string
  {
    if r == [] then []
    else if |r| >= 2 && r[0] == Quote && r[1] == Quote then [Quote] + CollapseQuotes(r[2..])
    else [r[0]] + CollapseQuotes(r[1..])
  }

  /** r reads as a sequence of doubled quotes and characters other than a quote. */
  predicate QuotesPaired(r: string)
  {
    if r == [] then true
    else if r[0] == Quote then |r| >= 2 && r[1] == Quote && QuotesPaired(r[2..])
    else QuotesPaired(r[1..])
  }

  /** No quote stands alone: each has a quote right before or right after it. */
  predicate NoLoneQuote(r: string)
  {
    forall i :: 0 <= i < |r| && r[i] == Quote ==> NextToQuote(r, i)
  }

  /** Position i of r has a quote right before or right after it. */
  predicate NextToQuote(r: string, i: nat)
    requires i < |r|
  {
    (i + 1 < |r| && r[i + 1] == Quote) || (0 < i && r[i - 1] == Quote)
  }

  /** The escaped text grows by exactly one character per quote. */
  lemma {:induction false} EscapeLength(s: string)
    ensures |EscapeQuotes(s)| == |s| + Count(Quote, s)
  {
    if s != [] {
      EscapeLength(s[1..]);
    }
  }

  lemma {:induction false} CountAppend(c: char, a: string, b: string)
    ensures Count(c, a + b) == Count(c, a) + Count(c, b)
  {
    if a == [] {
      assert a + b == b;
    } else {
      assert (a + b)[1..] == a[1..] + b;
      CountAppend(c, a[1..], b);
    }
  }

  /** Every other character, the backslash among them, is left exactly as often as it was. */
  lemma {:induction false} EscapeKeepsOtherCharacters(s: string, c: char)
    requires c != Quote
    ensures Count(c, EscapeQuotes(s)) == Count(c, s)
  {
    if s != [] {
      EscapeKeepsOtherCharacters(s[1..], c);
      CountAppend(c, if s[0] == Quote then [Quote, Quote] else [s[0]], EscapeQuotes(s[1..]));
    }
  }

  lemma {:induction false} EscapedQuotesPaired(s: string)
    ensures QuotesPaired(EscapeQuotes(s))
  {
    if s != [] {
      EscapedQuotesPaired(s[1..]);
      var r := EscapeQuotes(s);
      if s[0] == Quote {
        assert r[2..] == EscapeQuotes(s[1..]);
      } else {
        assert r[1..] == EscapeQuotes(s[1..]);
      }
    }
  }

  lemma {:induction false} PairedHasNoLoneQuote(r: string)
    requires QuotesPaired(r)
    ensures NoLoneQuote(r)
  {
    if r != [] {
      var k := if r[0] == Quote then 2 else 1;
      var t := r[k..];
      PairedHasNoLoneQuote(t);
      forall i | 0 <= i < |r| && r[i] == Quote
        ensures NextToQuote(r, i)
      {
        if i == 0 {
          assert r[1] == Quote;
        } else if i < k {
          assert r[i - 1] == Quote;
        } else {
          var m := i - k;
          assert t[m] == r[i] && NextToQuote(t, m);
          if m + 1 < |t| && t[m + 1] == Quote {
            assert r[i + 1] == t[m + 1];
          } else {
            assert r[i - 1] == t[m - 1];
          }
        }
      }
    }
  }

  /** The escaped text contains no lone single quote. */
  lemma EscapedHasNoLoneQuote(s: string)
    ensures NoLoneQuote(EscapeQuotes(s))
  {
    EscapedQuotesPaired(s);
    PairedHasNoLoneQuote(EscapeQuotes(s));
  }

  /** Collapsing the doubled quotes recovers the original text. */
  lemma {:induction false} CollapseEscape(s: string)
    ensures CollapseQuotes(EscapeQuotes(s)) == s
  {
    if s != [] {
      CollapseEscape(s[1..]);
      var r := EscapeQuotes(s);
      if s[0] == Quote {
        assert r[2..] == EscapeQuotes(s[1..]);
      } else {
        assert r[1..] == EscapeQuotes(s[1..]);
        assert r[0] == s[0];
        if |r| >= 2 {
          assert r[0] != Quote;
        }
      }
      assert [s[0]] + s[1..] == s;
    }
  }

  /** Conversely, every paired text is the escaping of exactly its collapse. */
  lemma {:induction false} EscapeCollapse(r: string)
    requires QuotesPaired(r)
    ensures EscapeQuotes(CollapseQuotes(r)) == r
  {
    if r != [] {
      if r[0] == Quote {
        EscapeCollapse(r[2..]);
        assert [Quote, Quote] + r[2..] == r;
      } else {
        EscapeCollapse(r[1..]);
        assert [r[0]] + r[1..] == r;
      }
    }
  }

  /**
   * How ClickHouse reads a single-quoted string literal, starting just after
   * the opening quote: a doubled quote stands for one quote, a backslash
   * escapes the character after it, a single quote ends the literal. Yields
   * the text of the literal and what follows the closing quote, or None when
   * the literal never ends.
   */
  function ReadLiteral(s: string): Option<(string, string)>
  {
    if s == [] then None
    else if s[0] == Quote then
      if |s| >= 2 && s[1] == Quote then Prepend(Quote, ReadLiteral(s[2..]))
      else Some(([], s[1..]))
    else if s[0] == Backslash then
      if |s| == 1 then None else Prepend(Unescaped(s[1]), ReadLiteral(s[2..]))
    else Prepend(s[0], ReadLiteral(s[1..]))
  }

  function Prepend(c: char, read: Option<(string, string)>): Option<(string, string)>
  {
    match read
    case None => None
    case Some((text, rest)) => Some(([c] + text, rest))
  }

  /** The character a backslash sequence `\c` stands for. */
  function Unescaped(c: char): char
  {
    match c
    case 'n' => '\n'
    case 't' => '\t'
    case 'r' => '\r'
    case '0' => '\0'
    case 'b' => '\U{8}'
    case 'f' => '\U{C}'
    case 'a' => '\U{7}'
    case 'v' => '\U{B}'
    case _ => c
  }

  /** Text without quotes or backslashes never closes a literal. */
  lemma {:induction false} PlainTextUnterminated(t: string)
    requires Quote !in t && Backslash !in t
    ensures ReadLiteral(t) == None
  {
    if t != [] {
      PlainTextUnterminated(t[1..]);
    }
  }

  /**
   * As written, content made of a single backslash escapes the closing quote
   * of its own literal: the INSERT statement never closes the string and the
   * event is lost.
   */
  lemma TrailingBackslashUnterminated(tail: string)
    requires Quote !in tail && Backslash !in tail
    ensures ReadLiteral(EscapeQuotes([Backslash]) + [Quote] + tail) == None
  {
    assert EscapeQuotes([Backslash]) + [Quote] + tail == [Backslash, Quote] + tail;
    PlainTextUnterminated(tail);
  }

  /** As written, a backslash followed by `n` is stored as a newline. */
  lemma BackslashSequenceAltered()
    ensures ReadLiteral(EscapeQuotes(['a', Backslash, 'n']) + [Quote]) == Some((['a', '\n'], []))
  {
    var none: string := [];
    var e := ['a', Backslash, 'n', Quote];
    assert EscapeQuotes(['n']) == ['n'];
    assert EscapeQuotes([Backslash, 'n']) == [Backslash, 'n'];
    assert EscapeQuotes(['a', Backslash, 'n']) + [Quote] == e;
    assert e[1..] == [Backslash, 'n', Quote] && e[1..][2..] == [Quote] && [Quote][1..] == none;
    var closed := ReadLiteral([Quote]);
    assert closed == Some((none, none));
    var newline := ReadLiteral(e[1..]);
    assert newline == Prepend('\n', closed);
    assert ['\n'] + none == ['\n'];
    assert newline == Some((['\n'], none));
    assert ReadLiteral(e) == Prepend('a', newline);
    assert ['a'] + ['\n'] == ['a', '\n'];
  }

  /** As written, the literal reads back correctly exactly when there is no backslash to misread. */
  lemma {:induction false} EscapeQuotesRoundTrip(s: string, tail: string)
    requires Backslash !in s
    requires tail == [] || tail[0] != Quote
    ensures ReadLiteral(EscapeQuotes(s) + [Quote] + tail) == Some((s, tail))
  {
    if s == [] {
      assert EscapeQuotes(s) + [Quote] + tail == [Quote] + tail;
      assert ([Quote] + tail)[1..] == tail;
    } else {
      var x := EscapeQuotes(s[1..]) + [Quote] + tail;
      EscapeQuotesRoundTrip(s[1..], tail);
      if s[0] == Quote {
        var e := [Quote, Quote] + x;
        assert EscapeQuotes(s) + [Quote] + tail == e;
        assert e[2..] == x;
        assert ReadLiteral(e) == Prepend(Quote, ReadLiteral(x));
      } else {
        var e := [s[0]] + x;
        assert EscapeQuotes(s) + [Quote] + tail == e;
        assert e[1..] == x;
        assert ReadLiteral(e) == Prepend(s[0], ReadLiteral(x));
      }
      assert [s[0]] + s[1..] == s;
    }
  }

  /** Escaping that doubles backslashes as well as quotes. */
  function EscapeLiteral(s: string): (r: string)
  {
    if s == [] then []
    else (if s[0] == Quote || s[0] == Backslash then [s[0], s[0]] else [s[0]]) + EscapeLiteral(s[1..])
  }

  /** Whatever the content, its corrected literal reads back as that content. */
  lemma {:induction false} EscapeLiteralRoundTrip(s: string, tail: string)
    requires tail == [] || tail[0] != Quote
    ensures ReadLiteral(EscapeLiteral(s) + [Quote] + tail) == Some((s, tail))
  {
    if s == [] {
      assert EscapeLiteral(s) + [Quote] + tail == [Quote] + tail;
      assert ([Quote] + tail)[1..] == tail;
    } else {
      var x := EscapeLiteral(s[1..]) + [Quote] + tail;
      EscapeLiteralRoundTrip(s[1..], tail);
      if s[0] == Quote || s[0] == Backslash {
        var e := [s[0], s[0]] + x;
        assert EscapeLiteral(s) + [Quote] + tail == e;
        assert e[2..] == x;
        assert ReadLiteral(e) == Prepend(s[0], ReadLiteral(x));
      } else {
        var e := [s[0]] + x;
        assert EscapeLiteral(s) + [Quote] + tail == e;
        assert e[1..] == x;
        assert ReadLiteral(e) == Prepend(s[0], ReadLiteral(x));
      }
      assert [s[0]] + s[1..] == s;
    }
  }

  /** Without backslashes the corrected escaping is the one written in add_event. */
  lemma {:induction false} EscapeLiteralAgrees(s: string)
    requires Backslash !in s
    ensures EscapeLiteral(s) == EscapeQuotes(s)
  {
    if s != [] {
      EscapeLiteralAgrees(s[1..]);
    }
  }
}
