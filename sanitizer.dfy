/**
  HTML escaping of user text (app.js `escapeHtml`), and an independent decoder
  of the five entities it produces, used to state that escaping loses nothing.
 */
module Sanitizer {
  import opened Wrappers

  const Amp: string := "&amp;"
  const Lt: string := "&lt;"
  const Gt: string := "&gt;"
  const Quot: string := "&quot;"
  const Apos: string := "&#39;"

  /** The characters the escaping regular expression `/[&<>"']/g` matches. */
  predicate IsSpecial(c: char)
    ensures IsSpecial(c) <==> c in "&<>\"'"
  {
    c == '&' || c == '<' || c == '>' || c == '"' || c == '\''
  }

  /** The replacement table applied to one matched character; other characters stay. */
  function EscapeChar(c: char): (r: string)
    ensures |r| >= 1
    ensures !IsSpecial(c) <==> r == [c]
    ensures r[0] == '&' <==> IsSpecial(c)
  {
    match c
    case '&' => Amp
    case '<' => Lt
    case '>' => Gt
    case '"' => Quot
    case '\'' => Apos
    case _ => [c]
  }

  /** The global `replace`: every character of `s`, left to right, through the table. */
  function Escape(s: string): (r: string)
    ensures |r| >= |s|
  {
    if s == [] then [] else EscapeChar(s[0]) + Escape(s[1..])
  }

  /** `escapeHtml(str)`: a falsy argument (absent or empty) gives the empty string. */
  function EscapeHtml(str: Option<string>): (r: string)
    ensures str == None || str == Some("") ==> r == ""
    ensures str.Some? ==> r == Escape(str.value)
    ensures NoRawMarkup(r)
    ensures AmpersandsStartEntities(r)
  {
    match str
    case None => ""
    case Some(s) =>
      if s == "" then ""
      else
        EscapeNoRawMarkup(s);
        EscapeAmpersands(s);
        Escape(s)
  }

  /** None of the four markup characters other than `&` occurs. */
  predicate NoRawMarkup(r: string) {
    '<' !in r && '>' !in r && '"' !in r && '\'' !in r
  }

  /** `t` begins with one of the five entities the table produces. */
  predicate StartsWithEntity(t: string) {
    Amp <= t || Lt <= t || Gt <= t || Quot <= t || Apos <= t
  }

  /** Every `&` in `r` is the first character of an entity. */
  predicate AmpersandsStartEntities(r: string) {
    forall i :: 0 <= i < |r| && r[i] == '&' ==> StartsWithEntity(r[i..])
  }

  /** Standard decoding of the five entities; any other character is copied. */
  function Unescape(r: string): (s: string)
    ensures |s| <= |r|
  {
    if r == [] then []
    else if Amp <= r then ['&'] + Unescape(r[|Amp|..])
    else if Lt <= r then ['<'] + Unescape(r[|Lt|..])
    else if Gt <= r then ['>'] + Unescape(r[|Gt|..])
    else if Quot <= r then ['"'] + Unescape(r[|Quot|..])
    else if Apos <= r then ['\''] + Unescape(r[|Apos|..])
    else [r[0]] + Unescape(r[1..])
  }

  lemma {:induction false} EscapeNoRawMarkup(s: string)
    ensures NoRawMarkup(Escape(s))
  {
    if s != [] {
      EscapeNoRawMarkup(s[1..]);
      assert Escape(s) == EscapeChar(s[0]) + Escape(s[1..]);
    }
  }

  /** Prepending the escape of one character keeps every `&` at the head of an entity. */
  lemma ChunkAmpersands(c: char, rest: string)
    requires AmpersandsStartEntities(rest)
    ensures AmpersandsStartEntities(EscapeChar(c) + rest)
  {
    var chunk := EscapeChar(c);
    var r := chunk + rest;
    forall i | 0 <= i < |r| && r[i] == '&'
      ensures StartsWithEntity(r[i..])
    {
      if i < |chunk| {
        assert i == 0;
        assert chunk <= r[i..];
      } else {
        assert r[i..] == rest[i - |chunk|..];
      }
    }
  }

  lemma {:induction false} EscapeAmpersands(s: string)
    ensures AmpersandsStartEntities(Escape(s))
  {
    if s != [] {
      EscapeAmpersands(s[1..]);
      ChunkAmpersands(s[0], Escape(s[1..]));
    }
  }

  /** Decoding undoes the escape of one character. */
  lemma UnescapeChunk(c: char, rest: string)
    ensures Unescape(EscapeChar(c) + rest) == [c] + Unescape(rest)
  {
    var e := EscapeChar(c);
    var r := e + rest;
    assert e <= r && r[|e|..] == rest;
    if !IsSpecial(c) {
      assert r[0] == c && !(Amp <= r) && !(Lt <= r) && !(Gt <= r) && !(Quot <= r) && !(Apos <= r);
    } else if c == '<' {
      assert r[1] == 'l' && !(Amp <= r);
    } else if c == '>' {
      assert r[1] == 'g' && !(Amp <= r) && !(Lt <= r);
    } else if c == '"' {
      assert r[1] == 'q' && !(Amp <= r) && !(Lt <= r) && !(Gt <= r);
    } else if c == '\'' {
      assert r[1] == '#' && !(Amp <= r) && !(Lt <= r) && !(Gt <= r) && !(Quot <= r);
    }
  }

  /** Round trip: decoding the escaped text gives back the input. */
  lemma {:induction false} UnescapeEscape(s: string)
    ensures Unescape(Escape(s)) == s
  {
    if s != [] {
      UnescapeEscape(s[1..]);
      UnescapeChunk(s[0], Escape(s[1..]));
    }
  }

  /** Escaping works character by character: it distributes over concatenation. */
  lemma {:induction false} EscapeAppend(a: string, b: string)
    ensures Escape(a + b) == Escape(a) + Escape(b)
  {
    if a != [] {
      assert (a + b)[1..] == a[1..] + b;
      EscapeAppend(a[1..], b);
    } else {
      assert a + b == b;
    }
  }

  /** Text without special characters is copied unchanged, and only such text is. */
  lemma {:induction false} EscapeIdentity(s: string)
    ensures Escape(s) == s <==> forall i :: 0 <= i < |s| ==> !IsSpecial(s[i])
  {
    if s != [] {
      EscapeIdentity(s[1..]);
      var chunk := EscapeChar(s[0]);
      if IsSpecial(s[0]) {
        assert |Escape(s)| > |s| by {
          assert |chunk| > 1;
        }
      } else {
        assert Escape(s) == [s[0]] + Escape(s[1..]);
        assert s == [s[0]] + s[1..];
        if Escape(s) == s {
          assert Escape(s[1..]) == s[1..];
        }
        assert (forall i :: 0 <= i < |s| ==> !IsSpecial(s[i])) <==>
               (forall i :: 0 <= i < |s[1..]| ==> !IsSpecial(s[1..][i]));
      }
    }
  }
}
