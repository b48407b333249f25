/** The form-urlencoded key decoding applied to storage object keys
    (Python's `urllib.parse.unquote_plus`), modelled one character at a time:
    `+` stands for a space, `%HH` with two hexadecimal digits of either case
    stands for the character whose code is HH, and every other character,
    including a `%` not followed by two hexadecimal digits, stands for itself.
    `QuotePlus` is the matching encoder, used only as the decoder's inverse. */
module PercentCoding {

  predicate IsHexDigit(c: char)
  {
    ('0' <= c <= '9') || ('a' <= c <= 'f') || ('A' <= c <= 'F')
  }

  function HexValue(c: char): (v: nat)
    requires IsHexDigit(c)
    ensures v < 16
  {
    if '0' <= c <= '9' then c as int - '0' as int
    else if 'a' <= c <= 'f' then c as int - 'a' as int + 10
    else c as int - 'A' as int + 10
  }

  /** The upper-case hexadecimal digit for `n`. */
  function HexDigit(n: nat): (c: char)
    requires n < 16
    ensures IsHexDigit(c) && HexValue(c) == n
  {
    "0123456789ABCDEF"[n]
  }

  /** `s` begins with a well-formed escape `%HH`. */
  predicate StartsWithEscape(s: string)
  {
    |s| >= 3 && s[0] == '%' && IsHexDigit(s[1]) && IsHexDigit(s[2])
  }

  /** The character an escape `%HH` at the start of `s` stands for. */
  function EscapedChar(s: string): (c: char)
    requires StartsWithEscape(s)
    ensures (c as int) < 256
  {
    (16 * HexValue(s[1]) + HexValue(s[2])) as char
  }

  function UnquotePlus(s: string): (r: string)
    ensures |r| <= |s|
    decreases |s|
  {
    if |s| == 0 then ""
    else if s[0] == '+' then " " + UnquotePlus(s[1..])
    else if StartsWithEscape(s) then [EscapedChar(s)] + UnquotePlus(s[3..])
    else [s[0]] + UnquotePlus(s[1..])
  }

  /** Characters `quote_plus` leaves as they are. */
  predicate IsUnreserved(c: char)
  {
    ('a' <= c <= 'z') || ('A' <= c <= 'Z') || ('0' <= c <= '9')
    || c == '_' || c == '.' || c == '-' || c == '~'
  }

  /** Every character has a one-byte code, so that `%HH` can express it. */
  predicate IsByteString(s: string)
  {
    forall i :: 0 <= i < |s| ==> (s[i] as int) < 256
  }

  function QuoteChar(c: char): (r: string)
    requires (c as int) < 256
    ensures 1 <= |r| <= 3
  {
    if c == ' ' then "+"
    else if IsUnreserved(c) then [c]
    else ['%', HexDigit(c as int / 16), HexDigit(c as int % 16)]
  }

  function QuotePlus(s: string): (r: string)
    requires IsByteString(s)
    ensures |s| <= |r| <= 3 * |s|
  {
    if |s| == 0 then "" else QuoteChar(s[0]) + QuotePlus(s[1..])
  }

  /** Decoding the encoding of one character yields that character, whatever follows. */
  lemma UnquoteQuoteChar(c: char, rest: string)
    requires (c as int) < 256
    ensures UnquotePlus(QuoteChar(c) + rest) == [c] + UnquotePlus(rest)
  {
    var e := QuoteChar(c) + rest;
    if c == ' ' {
      assert e[1..] == rest;
    } else if IsUnreserved(c) {
      assert e[1..] == rest;
      assert !StartsWithEscape(e);
    } else {
      assert StartsWithEscape(e);
      assert e[3..] == rest;
      assert 16 * (c as int / 16) + c as int % 16 == c as int;
    }
  }

  /** Round trip: decoding a `quote_plus` encoding gives back the original key. */
  lemma {:induction false} UnquoteQuote(s: string)
    requires IsByteString(s)
    ensures UnquotePlus(QuotePlus(s)) == s
    decreases |s|
  {
    if |s| > 0 {
      UnquoteQuoteChar(s[0], QuotePlus(s[1..]));
      UnquoteQuote(s[1..]);
      assert [s[0]] + s[1..] == s;
    }
  }

  /** A key with no `+` and no `%`: nothing in it is decoded. */
  predicate IsPlain(s: string)
  {
    '+' !in s && '%' !in s
  }

  /** A plain key decodes to itself. */
  lemma {:induction false} UnquotePlainKey(s: string)
    requires IsPlain(s)
    ensures UnquotePlus(s) == s
    decreases |s|
  {
    if |s| > 0 {
      assert s == [s[0]] + s[1..];
      UnquotePlainKey(s[1..]);
    }
  }

  /** A plain prefix is copied and decoding continues after it. */
  lemma {:induction false} UnquoteConcatPlain(p: string, rest: string)
    requires IsPlain(p)
    ensures UnquotePlus(p + rest) == p + UnquotePlus(rest)
    decreases |p|
  {
    if |p| > 0 {
      assert p == [p[0]] + p[1..];
      assert (p + rest)[1..] == p[1..] + rest;
      UnquoteConcatPlain(p[1..], rest);
      assert [p[0]] + (p[1..] + UnquotePlus(rest)) == p + UnquotePlus(rest);
    } else {
      assert p + rest == rest;
    }
  }

  /** A leading `+` decodes to a space. */
  lemma UnquoteLeadingPlus(x: string)
    ensures UnquotePlus("+" + x) == " " + UnquotePlus(x)
  {
    assert ("+" + x)[1..] == x;
  }

  /** A leading `%20` decodes to a space. */
  lemma UnquoteLeadingSpaceEscape(x: string)
    ensures UnquotePlus("%20" + x) == " " + UnquotePlus(x)
  {
    var e := "%20" + x;
    assert StartsWithEscape(e) && EscapedChar(e) == ' ';
    assert e[3..] == x;
  }

  /** A key made of plain segments joined by `+` and by `%20` decodes to the
      same segments joined by spaces. */
  lemma DecodeSegments(a: string, b: string, c: string)
    requires IsPlain(a) && IsPlain(b) && IsPlain(c)
    ensures UnquotePlus(a + ("+" + (b + ("%20" + c)))) == a + (" " + (b + (" " + c)))
  {
    UnquotePlainKey(c);
    UnquoteLeadingSpaceEscape(c);
    UnquoteConcatPlain(b, "%20" + c);
    UnquoteLeadingPlus(b + ("%20" + c));
    UnquoteConcatPlain(a, "+" + (b + ("%20" + c)));
  }

  /** The key "folder+name/file%20one.jpg" decodes to "folder name/file one.jpg".
      The literal is passed as a parameter fixed by the precondition, and
      `FolderNameFileOneSegments` splits it into segments, so that the solver
      works with `DecodeSegments` instead of unrolling `UnquotePlus` over the
      literal character by character. */
  lemma DecodeFolderNameFileOne(s: string)
    requires s == "folder+name/file%20one.jpg"
    ensures UnquotePlus(s) == "folder name/file one.jpg"
  {
    FolderNameFileOneSegments(s);
    DecodeSegments("folder", "name/file", "one.jpg");
  }

  /** "folder+name/file%20one.jpg" is the plain segments "folder", "name/file"
      and "one.jpg" joined by `+` and by `%20`. */
  lemma FolderNameFileOneSegments(s: string)
    requires s == "folder+name/file%20one.jpg"
    ensures s == "folder" + ("+" + ("name/file" + ("%20" + "one.jpg")))
    ensures "folder" + (" " + ("name/file" + (" " + "one.jpg"))) == "folder name/file one.jpg"
  {
  }
}
