/**
 * `escapeHtml` of src/components/detail/ReadmeViewer.tsx: three global replacements,
 * `&` first, that make a README's text safe to insert as HTML before the markdown
 * rules add their own tags.
 */
module ReadmeViewer {

  /** `s.replace(/c/g, with)`: every occurrence of the character `c` replaced by `with`. */
  function ReplaceAll(s: string, c: char, with: string): (r: string)
    ensures forall d :: d in r ==> d in with || (d != c && d in s)
    ensures c !in s ==> r == s
  {
    if s == [] then []
    else (if s[0] == c then with else [s[0]]) + ReplaceAll(s[1..], c, with)
  }

  /** Replacing in a concatenation replaces in each part. */
  lemma {:induction false} ReplaceAllAppend(a: string, b: string, c: char, with: string)
    ensures ReplaceAll(a + b, c, with) == ReplaceAll(a, c, with) + ReplaceAll(b, c, with)
  {
    if a == [] {
      assert a + b == b;
    } else {
      assert (a + b)[0] == a[0];
      assert (a + b)[1..] == a[1..] + b;
      ReplaceAllAppend(a[1..], b, c, with);
    }
  }

  /** `escapeHtml`: `&`, then `<`, then `>` replaced by their entities. */
  function EscapeHtml(text: string): (html: string)
    ensures '<' !in html && '>' !in html
    ensures '&' !in text && '<' !in text && '>' !in text ==> html == text
  {
    ReplaceAll(ReplaceAll(ReplaceAll(text, '&', "&amp;"), '<', "&lt;"), '>', "&gt;")
  }

  /** The entity a single character becomes, or the character itself. */
  function EscapeChar(c: char): string
  {
    if c == '&' then "&amp;" else if c == '<' then "&lt;" else if c == '>' then "&gt;" else [c]
  }

  /** Escaping character by character. */
  function EscapeEach(s: string): string
  {
    if s == [] then [] else EscapeChar(s[0]) + EscapeEach(s[1..])
  }

  /** Replacing in a one-character string. */
  lemma ReplaceOne(c: char, x: char, with: string)
    ensures ReplaceAll([c], x, with) == if c == x then with else [c]
  {
    assert [c][1..] == [];
  }

  /** One character goes through the three passes as `EscapeChar` says. */
  lemma EscapeOne(c: char)
    ensures EscapeHtml([c]) == EscapeChar(c)
  {
    ReplaceOne(c, '&', "&amp;");
    if c == '&' {
      assert '<' !in "&amp;" && '>' !in "&amp;";
    } else {
      ReplaceOne(c, '<', "&lt;");
      if c == '<' {
        assert '>' !in "&lt;";
      } else {
        ReplaceOne(c, '>', "&gt;");
      }
    }
  }

  /**
   * Because `&` is replaced first, the ampersands the later passes introduce are never
   * escaped again: the three passes escape each character once.
   */
  lemma {:induction false} EscapeHtmlIsPerChar(text: string)
    ensures EscapeHtml(text) == EscapeEach(text)
  {
    if text != [] {
      var c, rest := text[0], text[1..];
      assert text == [c] + rest;
      ReplaceAllAppend([c], rest, '&', "&amp;");
      var a1, a2 := ReplaceAll([c], '&', "&amp;"), ReplaceAll(rest, '&', "&amp;");
      ReplaceAllAppend(a1, a2, '<', "&lt;");
      var b1, b2 := ReplaceAll(a1, '<', "&lt;"), ReplaceAll(a2, '<', "&lt;");
      ReplaceAllAppend(b1, b2, '>', "&gt;");
      EscapeOne(c);
      EscapeHtmlIsPerChar(rest);
    }
  }

  /** The number of times `c` occurs in `s`. */
  function Count(s: string, c: char): nat
  {
    if s == [] then 0 else (if s[0] == c then 1 else 0) + Count(s[1..], c)
  }

  /** Each `&` grows by four characters, each `<` and `>` by three. */
  lemma {:induction false} EscapedLength(text: string)
    ensures |EscapeHtml(text)| == |text| + 4 * Count(text, '&') + 3 * Count(text, '<') + 3 * Count(text, '>')
  {
    EscapeHtmlIsPerChar(text);
    EachLength(text);
  }

  lemma {:induction false} EachLength(s: string)
    ensures |EscapeEach(s)| == |s| + 4 * Count(s, '&') + 3 * Count(s, '<') + 3 * Count(s, '>')
  {
    if s != [] {
      EachLength(s[1..]);
    }
  }

  /** Position `i` of `html` starts one of the three entities. */
  predicate EntityAt(html: string, i: nat)
    requires i <= |html|
  {
    "&amp;" <= html[i..] || "&lt;" <= html[i..] || "&gt;" <= html[i..]
  }

  /** Every ampersand of `html` starts an entity: none is left bare. */
  predicate NoBareAmpersand(html: string)
  {
    forall i :: 0 <= i < |html| && html[i] == '&' ==> EntityAt(html, i)
  }

  /** Every ampersand of the output starts an entity. */
  lemma EveryAmpersandStartsEntity(text: string)
    ensures NoBareAmpersand(EscapeHtml(text))
  {
    EscapeHtmlIsPerChar(text);
    EachAmpersand(text);
  }

  lemma {:induction false} EachAmpersand(s: string)
    ensures NoBareAmpersand(EscapeEach(s))
  {
    if s != [] {
      EachAmpersand(s[1..]);
      var e, rest := EscapeChar(s[0]), EscapeEach(s[1..]);
      var html := e + rest;
      assert html == EscapeEach(s);
      forall i | 0 <= i < |html| && html[i] == '&' ensures EntityAt(html, i) {
        if i < |e| {
          assert html[i] == e[i];
          assert i == 0;
          assert html[i..] == html && e <= html;
        } else {
          var j := i - |e|;
          assert rest[j] == html[i] == '&';
          assert html[i..] == rest[j..];
        }
      }
    }
  }

  /** Reading the entities back: the inverse of escaping. */
  function Unescape(html: string): (text: string)
    decreases |html|
  {
    if html == [] then []
    else if "&amp;" <= html then "&" + Unescape(html[5..])
    else if "&lt;" <= html then "<" + Unescape(html[4..])
    else if "&gt;" <= html then ">" + Unescape(html[4..])
    else [html[0]] + Unescape(html[1..])
  }

  /** Escaping loses nothing: the original text can be read back from the output. */
  lemma UnescapeEscape(text: string)
    ensures Unescape(EscapeHtml(text)) == text
  {
    EscapeHtmlIsPerChar(text);
    UnescapeEach(text);
  }

  lemma {:induction false} UnescapeEach(s: string)
    ensures Unescape(EscapeEach(s)) == s
  {
    if s != [] {
      var e, rest := EscapeChar(s[0]), EscapeEach(s[1..]);
      var html := e + rest;
      assert html == EscapeEach(s);
      assert html[|e|..] == rest;
      UnescapeEach(s[1..]);
      assert e <= html;
      if s[0] == '&' {
        assert Unescape(html) == "&" + Unescape(rest);
      } else if s[0] == '<' {
        assert !("&amp;" <= html) by { assert html[1] == 'l'; }
        assert Unescape(html) == "<" + Unescape(rest);
      } else if s[0] == '>' {
        assert !("&amp;" <= html) by { assert html[1] == 'g'; }
        assert !("&lt;" <= html) by { assert html[1] == 'g'; }
        assert Unescape(html) == ">" + Unescape(rest);
      } else {
        assert html[0] == s[0] != '&';
        assert Unescape(html) == [s[0]] + Unescape(rest);
      }
      assert s == [s[0]] + s[1..];
    }
  }
}
