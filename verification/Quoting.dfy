/** Identifier quoting, and the reading back of the two statements that the migration prints. */
module Quoting {
  import opened Results
  import opened Text

  /** The white space of Java's String.isBlank. */
  predicate IsJavaWhitespace(c: char) {
    || '\t' <= c <= '\r'
    || '\U{1C}' <= c <= ' '
    || c == '\U{1680}' || '\U{2000}' <= c <= '\U{2006}' || '\U{2008}' <= c <= '\U{200A}'
    || c == '\U{2028}' || c == '\U{2029}' || c == '\U{205F}' || c == '\U{3000}'
  }

  /** Character.isWhitespace by code point: separators that may break a line, and nine controls. */
  lemma JavaWhitespaceIs(c: char)
    ensures IsJavaWhitespace(c)
       <==> || c as int in {0x09, 0x0A, 0x0B, 0x0C, 0x0D, 0x1C, 0x1D, 0x1E, 0x1F, 0x20, 0x1680}
            || (0x2000 <= c as int <= 0x200A && c as int != 0x2007)
            || c as int in {0x2028, 0x2029, 0x205F, 0x3000}
  {
  }

  predicate IsBlank(s: string) {
    forall i | 0 <= i < |s| :: IsJavaWhitespace(s[i])
  }

  /** String.replace: occurrences from left to right, not overlapping. */
  function Replace(s: string, target: string, put: string): string
    requires target != ""
    decreases |s|
  {
    if s == "" then ""
    else if StartsWith(s, target) then put + Replace(s[|target|..], target, put)
    else [s[0]] + Replace(s[1..], target, put)
  }

  /** The quoted form, with a quote that is not blank. */
  function Quoted(quote: string, identifier: string): string
    requires quote != ""
  {
    quote + Replace(identifier, quote, quote + quote) + quote
  }

  /** quoteIdentifier; None when the database exposes no quoting. */
  function QuoteIdentifier(quote: Option<string>, identifier: string): Option<string> {
    if quote == None || IsBlank(quote.value) then None else Some(Quoted(quote.value, identifier))
  }

  /** The inside of a quoted identifier: up to the first quote that is not doubled, each doubled
      quote standing for one. The result is the identifier and what follows the closing quote. */
  function ReadInside(quote: string, text: string): Option<(string, string)>
    requires quote != ""
    decreases |text|
  {
    if text == "" then None
    else if StartsWith(text, quote + quote) then
      match ReadInside(quote, text[2 * |quote|..])
      case None => None
      case Some((inside, rest)) => Some((quote + inside, rest))
    else if StartsWith(text, quote) then Some(("", text[|quote|..]))
    else
      match ReadInside(quote, text[1..])
      case None => None
      case Some((inside, rest)) => Some(([text[0]] + inside, rest))
  }

  /** A quoted identifier at the start of a text. */
  function ReadQuoted(quote: string, text: string): Option<(string, string)>
    requires quote != ""
  {
    if StartsWith(text, quote) then ReadInside(quote, text[|quote|..]) else None
  }

  /** Some proper end of the quote is also its beginning. */
  predicate Bordered(quote: string) {
    exists k | 0 < k < |quote| :: quote[..k] == quote[|quote| - k..]
  }

  lemma Regroup(a: string, b: string, c: string, d: string)
    ensures a + b + c + d == a + (b + c + d)
  {
  }

  lemma PrefixAppended(a: string, b: string, p: string)
    ensures StartsWith(a + b, a)
    ensures StartsWith(b, p) ==> StartsWith(a + b, a + p)
  {
    assert StartsWith(b, p) ==> (a + b)[..|a + p|] == a + p;
  }

  /** How much of an identifier stands before its first occurrence of the quote. */
  function PlainLength(identifier: string, quote: string): (n: nat)
    requires quote != ""
    ensures n <= |identifier|
    decreases |identifier|
  {
    if identifier == "" || StartsWith(identifier, quote) then 0 else 1 + PlainLength(identifier[1..], quote)
  }

  /** The body of a quoted identifier starts with that part and then a quote. */
  lemma {:induction false} BodyStarts(quote: string, identifier: string, rest: string)
    requires quote != ""
    ensures StartsWith(Replace(identifier, quote, quote + quote) + quote + rest,
                       identifier[..PlainLength(identifier, quote)] + quote)
    decreases |identifier|
  {
    var n := PlainLength(identifier, quote);
    if identifier == "" {
      assert "" + quote + rest == quote + rest && identifier[..0] + quote == quote;
    } else if StartsWith(identifier, quote) {
      var tail := Replace(identifier[|quote|..], quote, quote + quote);
      assert quote + quote + tail + quote + rest == quote + (quote + tail + quote + rest);
      assert identifier[..0] + quote == quote;
    } else {
      var c, tail := [identifier[0]], Replace(identifier[1..], quote, quote + quote);
      BodyStarts(quote, identifier[1..], rest);
      Regroup(c, tail, quote, rest);
      PrefixAppended(c, tail + quote + rest, identifier[1..][..n - 1] + quote);
      assert identifier[..n] + quote == c + (identifier[1..][..n - 1] + quote);
    }
  }

  /** A quote at the start of a text that begins with p and a quote: it lies in p, or it is that
      quote, or it runs into it and the quote has a border. */
  lemma Overlap(text: string, p: string, quote: string)
    requires StartsWith(text, p + quote) && StartsWith(text, quote) && p != ""
    ensures StartsWith(p, quote) || Bordered(quote)
  {
    var start := p + quote;
    assert text[..|start|] == start;
    assert start[..|quote|] == quote;
    if |quote| <= |p| {
      assert p[..|quote|] == start[..|quote|];
    } else {
      var k := |quote| - |p|;
      assert start[..|quote|][|p|..] == quote[..k];
      assert quote[|p|..] == quote[..k];
    }
  }

  lemma StartsPrefix(s: string, n: nat, p: string)
    requires n <= |s|
    ensures StartsWith(s[..n], p) ==> StartsWith(s, p)
  {
    if StartsWith(s[..n], p) {
      assert s[..|p|] == s[..n][..|p|];
    }
  }

  lemma StartsOnce(s: string, p: string)
    ensures StartsWith(s, p + p) ==> StartsWith(s, p)
  {
    if StartsWith(s, p + p) {
      assert s[..|p|] == s[..2 * |p|][..|p|];
    }
  }

  lemma StartsAfter(p: string, rest: string)
    ensures StartsWith(p + rest, p + p) ==> StartsWith(rest, p)
  {
    if StartsWith(p + rest, p + p) {
      assert rest[..|p|] == (p + rest)[..2 * |p|][|p|..];
    }
  }

  /** Where the identifier does not start with the quote, neither does the body: an occurrence that
      ran into the first quote of the body would be a border. */
  lemma NoEarlyQuote(quote: string, identifier: string, rest: string)
    requires quote != "" && !Bordered(quote) && identifier != "" && !StartsWith(identifier, quote)
    ensures !StartsWith(Replace(identifier, quote, quote + quote) + quote + rest, quote)
  {
    var text := Replace(identifier, quote, quote + quote) + quote + rest;
    var p := identifier[..PlainLength(identifier, quote)];
    BodyStarts(quote, identifier, rest);
    StartsPrefix(identifier, PlainLength(identifier, quote), quote);
    if StartsWith(text, quote) {
      Overlap(text, p, quote);
    }
  }

  lemma ReadClosing(quote: string, rest: string)
    requires quote != "" && !StartsWith(rest, quote)
    ensures ReadInside(quote, quote + rest) == Some(("", rest))
  {
    var text := quote + rest;
    assert text[..|quote|] == quote && text[|quote|..] == rest;
    StartsAfter(quote, rest);
  }

  lemma ReadDoubled(quote: string, tail: string, inside: string, rest: string)
    requires quote != "" && ReadInside(quote, tail) == Some((inside, rest))
    ensures ReadInside(quote, quote + quote + tail) == Some((quote + inside, rest))
  {
    var text := quote + quote + tail;
    assert text[..2 * |quote|] == quote + quote && text[2 * |quote|..] == tail;
  }

  lemma ReadOther(quote: string, c: char, tail: string, inside: string, rest: string)
    requires quote != "" && !StartsWith([c] + tail, quote) && ReadInside(quote, tail) == Some((inside, rest))
    ensures ReadInside(quote, [c] + tail) == Some(([c] + inside, rest))
  {
    var text := [c] + tail;
    assert text[1..] == tail;
    StartsOnce(text, quote);
  }

  /** With a quote without border the body can be read back whatever it contains, and reading stops
      exactly at the closing quote. */
  lemma {:induction false} InsideRead(quote: string, identifier: string, rest: string)
    requires quote != "" && !Bordered(quote) && !StartsWith(rest, quote)
    ensures ReadInside(quote, Replace(identifier, quote, quote + quote) + quote + rest) == Some((identifier, rest))
    decreases |identifier|
  {
    if identifier == "" {
      ReadClosing(quote, rest);
      assert "" + quote + rest == quote + rest;
    } else if StartsWith(identifier, quote) {
      var after := identifier[|quote|..];
      var body := Replace(after, quote, quote + quote);
      InsideRead(quote, after, rest);
      ReadDoubled(quote, body + quote + rest, after, rest);
      Regroup(quote + quote, body, quote, rest);
      assert quote + after == identifier;
    } else {
      var c, body := identifier[0], Replace(identifier[1..], quote, quote + quote);
      NoEarlyQuote(quote, identifier, rest);
      InsideRead(quote, identifier[1..], rest);
      Regroup([c], body, quote, rest);
      ReadOther(quote, c, body + quote + rest, identifier[1..], rest);
      assert [c] + identifier[1..] == identifier;
    }
  }

  /** Reading a quoted identifier, whatever follows, gives it back and stops at its end. */
  ghost predicate ReadsBack(quote: string, identifier: string, rest: string)
    requires quote != ""
  {
    ReadQuoted(quote, Quoted(quote, identifier) + rest) == Some((identifier, rest))
  }

  lemma QuotedRead(quote: string, identifier: string, rest: string)
    requires quote != "" && !Bordered(quote) && !StartsWith(rest, quote)
    ensures ReadsBack(quote, identifier, rest)
  {
    InsideRead(quote, identifier, rest);
    var body := Replace(identifier, quote, quote + quote);
    Regroup(quote, body, quote, rest);
    var text := quote + (body + quote + rest);
    assert text[..|quote|] == quote && text[|quote|..] == body + quote + rest;
  }

  lemma {:induction false} ShortIsKept(s: string, quote: string)
    requires |s| < |quote|
    ensures Replace(s, quote, quote + quote) == s
    decreases |s|
  {
    if s != "" {
      ShortIsKept(s[1..], quote);
    }
  }

  /** With a border, what stands before it is an identifier that is read back before nothing: the
      body begins with a quote, and whatever is read from there is empty or too long. */
  lemma BorderMisread(quote: string, k: nat, rest: string)
    requires 0 < k < |quote| && quote[..k] == quote[|quote| - k..]
    ensures var read := ReadQuoted(quote, Quoted(quote, quote[..|quote| - k]) + rest);
      read.Some? ==> read.value.0 != quote[..|quote| - k]
  {
    var u, end := quote[..|quote| - k], quote[k..];
    ShortIsKept(u, quote);
    assert quote == u + quote[..k] && quote == quote[..k] + end;
    var inside := u + quote + rest;
    assert inside == quote + (end + rest);
    assert inside[..|quote|] == quote;
    Regroup(quote, u, quote, rest);
    var text := quote + inside;
    assert text[..|quote|] == quote && text[|quote|..] == inside;
  }

  /** In front of something that goes on with the quote, no identifier is read back: the closing
      quote is taken for a doubled one. */
  lemma {:induction false} InsideRunsOn(quote: string, identifier: string, rest: string)
    requires quote != "" && !Bordered(quote) && StartsWith(rest, quote)
    ensures var read := ReadInside(quote, Replace(identifier, quote, quote + quote) + quote + rest);
      read.Some? ==> |read.value.0| > |identifier|
    decreases |identifier|
  {
    var body := Replace(identifier, quote, quote + quote);
    if identifier == "" {
      var end := rest[|quote|..];
      assert "" + quote + rest == quote + quote + end;
      assert (quote + quote + end)[..2 * |quote|] == quote + quote;
    } else if StartsWith(identifier, quote) {
      var after := identifier[|quote|..];
      var tail := Replace(after, quote, quote + quote) + quote + rest;
      InsideRunsOn(quote, after, rest);
      Regroup(quote + quote, Replace(after, quote, quote + quote), quote, rest);
      assert (quote + quote + tail)[..2 * |quote|] == quote + quote && (quote + quote + tail)[2 * |quote|..] == tail;
    } else {
      var c, tail := [identifier[0]], Replace(identifier[1..], quote, quote + quote) + quote + rest;
      NoEarlyQuote(quote, identifier, rest);
      InsideRunsOn(quote, identifier[1..], rest);
      Regroup(c, Replace(identifier[1..], quote, quote + quote), quote, rest);
      assert (c + tail)[1..] == tail;
      StartsOnce(c + tail, quote);
    }
  }

  lemma QuotedRunsOn(quote: string, identifier: string, rest: string)
    requires quote != "" && !Bordered(quote) && StartsWith(rest, quote)
    ensures var read := ReadQuoted(quote, Quoted(quote, identifier) + rest);
      read.Some? ==> read.value.0 != identifier
  {
    InsideRunsOn(quote, identifier, rest);
    var body := Replace(identifier, quote, quote + quote);
    Regroup(quote, body, quote, rest);
    var text := quote + (body + quote + rest);
    assert text[..|quote|] == quote && text[|quote|..] == body + quote + rest;
  }

  /** Main result, quoting: the quoted form can be read back for every identifier, in front of anything
      that does not go on with the quote, exactly when the quote has no border. */
  lemma RoundTripExactlyWhen(quote: string)
    requires quote != ""
    ensures !Bordered(quote) <==>
      forall identifier, rest | !StartsWith(rest, quote) :: ReadsBack(quote, identifier, rest)
  {
    if !Bordered(quote) {
      forall identifier, rest | !StartsWith(rest, quote) ensures ReadsBack(quote, identifier, rest) {
        QuotedRead(quote, identifier, rest);
      }
    } else {
      var k :| 0 < k < |quote| && quote[..k] == quote[|quote| - k..];
      BorderMisread(quote, k, "");
      assert !StartsWith("", quote) && !ReadsBack(quote, quote[..|quote| - k], "");
    }
  }

  /** A quote of one character, as PostgreSQL's, has no border. */
  lemma OneCharacterWorks(q: char, identifier: string, rest: string)
    requires !StartsWith(rest, [q])
    ensures !Bordered([q]) && ReadsBack([q], identifier, rest)
  {
    QuotedRead([q], identifier, rest);
  }

  /** Quoting is injective. */
  lemma QuotedInjective(quote: string, a: string, b: string)
    requires quote != "" && !Bordered(quote) && Quoted(quote, a) == Quoted(quote, b)
    ensures a == b
  {
    QuotedRead(quote, a, "");
    QuotedRead(quote, b, "");
  }
}
