/** The map page's `escapeHtml`, which makes listing titles and category captions
    safe to splice into the HTML of a map balloon. */
module Html {
  import opened Wrappers
  import opened Text

  /** `s.replace(/c/g, rep)` for a single-character pattern. */
  function ReplaceAll(s: string, c: char, rep: string): string
    decreases |s|
  {
    if |s| == 0 then "" else (if s[0] == c then rep else [s[0]]) + ReplaceAll(s[1..], c, rep)
  }

  /** `escapeHtml(input = '')` as written: five global replacements in a row,
      ampersands first. An undefined input (`None`) escapes to the empty string; the
      model has no `null`, which JavaScript would turn into the text `null`. */
  function EscapeHtml(input: Option<string>): (r: string)
    ensures IsEscaped(r)
    ensures forall i | 0 <= i < |r| :: !IsMarkup(r[i])
    ensures |r| >= |input.GetOr("")|
    ensures Unescape(r) == input.GetOr("")
  {
    var s := input.GetOr("");
    EscapeIsOnePass(s);
    OnePassIsEscaped(s);
    UnescapeOnePass(s);
    EscapedHasNoMarkup(OnePass(s));
    Chain(s)
  }

  function Chain(s: string): string {
    ReplaceAll(ReplaceAll(ReplaceAll(ReplaceAll(ReplaceAll(s, '&', "&amp;"), '<', "&lt;"),
      '>', "&gt;"), '"', "&quot;"), '\'', "&#39;")
  }

  /** The entity each special character becomes; other characters stay as they are. */
  function EscapeChar(c: char): string {
    match c
    case '&' => "&amp;"
    case '<' => "&lt;"
    case '>' => "&gt;"
    case '"' => "&quot;"
    case '\'' => "&#39;"
    case _ => [c]
  }

  /** The reference definition: every character replaced by its entity in one pass. */
  function OnePass(s: string): string
    decreases |s|
  {
    if |s| == 0 then "" else EscapeChar(s[0]) + OnePass(s[1..])
  }

  predicate IsMarkup(c: char) {
    c == '<' || c == '>' || c == '"' || c == '\''
  }

  /** `r` reads as plain characters and whole entities only: no character that could
      open a tag or end an attribute value, and no ampersand outside an entity. */
  predicate IsEscaped(r: string)
    decreases |r|
  {
    if |r| == 0 then true
    else if r[0] != '&' then !IsMarkup(r[0]) && IsEscaped(r[1..])
    else if StartsWith(r, "&amp;") || StartsWith(r, "&#39;") then IsEscaped(r[5..])
    else if StartsWith(r, "&lt;") || StartsWith(r, "&gt;") then IsEscaped(r[4..])
    else StartsWith(r, "&quot;") && IsEscaped(r[6..])
  }

  /** An escaped string holds no markup character at all. */
  lemma {:induction false} EscapedHasNoMarkup(r: string)
    requires IsEscaped(r)
    ensures forall i | 0 <= i < |r| :: !IsMarkup(r[i])
    decreases |r|
  {
    if |r| > 0 {
      var k := if r[0] != '&' then 1
        else if StartsWith(r, "&amp;") || StartsWith(r, "&#39;") then 5
        else if StartsWith(r, "&lt;") || StartsWith(r, "&gt;") then 4 else 6;
      EscapedHasNoMarkup(r[k..]);
      forall i | 0 <= i < |r| ensures !IsMarkup(r[i]) {
        if i >= k { assert r[i] == r[k..][i - k]; }
      }
    }
  }

  /** Decodes the five entities back to their characters. */
  function Unescape(s: string): string
    decreases |s|
  {
    if |s| == 0 then ""
    else if s[0] != '&' then [s[0]] + Unescape(s[1..])
    else if StartsWith(s, "&amp;") then "&" + Unescape(s[5..])
    else if StartsWith(s, "&lt;") then "<" + Unescape(s[4..])
    else if StartsWith(s, "&gt;") then ">" + Unescape(s[4..])
    else if StartsWith(s, "&quot;") then "\"" + Unescape(s[6..])
    else if StartsWith(s, "&#39;") then "'" + Unescape(s[5..])
    else "&" + Unescape(s[1..])
  }

  lemma {:induction false} ReplaceAllConcat(a: string, b: string, c: char, rep: string)
    ensures ReplaceAll(a + b, c, rep) == ReplaceAll(a, c, rep) + ReplaceAll(b, c, rep)
    decreases |a|
  {
    if |a| > 0 {
      assert (a + b)[1..] == a[1..] + b;
      ReplaceAllConcat(a[1..], b, c, rep);
    } else {
      assert a + b == b;
    }
  }

  lemma {:induction false} ReplaceAllAbsent(s: string, c: char, rep: string)
    requires c !in s
    ensures ReplaceAll(s, c, rep) == s
    decreases |s|
  {
    if |s| > 0 {
      assert s[1..] <= s[1..];
      assert forall x | x in s[1..] :: x in s;
      ReplaceAllAbsent(s[1..], c, rep);
    }
  }

  lemma ReplaceAllSingle(x: char, c: char, rep: string)
    ensures ReplaceAll([x], c, rep) == if x == c then rep else [x]
  {
    assert [x][1..] == "";
  }

  /** One replacement step applied to an entity that it leaves alone. */
  lemma Untouched(e: string, c: char, rep: string)
    requires forall i | 0 <= i < |e| :: e[i] != c
    ensures ReplaceAll(e, c, rep) == e
  {
    ReplaceAllAbsent(e, c, rep);
  }

  /** The last replacements of the chain applied to one entity that none of them
      touches. */
  lemma TailUntouched(e: string, from: nat)
    requires 1 <= from <= 4
    requires from <= 1 ==> forall i | 0 <= i < |e| :: e[i] != '<'
    requires from <= 2 ==> forall i | 0 <= i < |e| :: e[i] != '>'
    requires from <= 3 ==> forall i | 0 <= i < |e| :: e[i] != '"'
    requires forall i | 0 <= i < |e| :: e[i] != '\''
    ensures from <= 1 ==> ReplaceAll(e, '<', "&lt;") == e
    ensures from <= 2 ==> ReplaceAll(e, '>', "&gt;") == e
    ensures from <= 3 ==> ReplaceAll(e, '"', "&quot;") == e
    ensures ReplaceAll(e, '\'', "&#39;") == e
  {
    if from <= 1 { Untouched(e, '<', "&lt;"); }
    if from <= 2 { Untouched(e, '>', "&gt;"); }
    if from <= 3 { Untouched(e, '"', "&quot;"); }
    Untouched(e, '\'', "&#39;");
  }

  lemma ChainOfChar(x: char)
    ensures Chain([x]) == EscapeChar(x)
  {
    ReplaceAllSingle(x, '&', "&amp;");
    if x == '&' {
      TailUntouched("&amp;", 1);
    } else {
      ReplaceAllSingle(x, '<', "&lt;");
      if x == '<' {
        TailUntouched("&lt;", 2);
      } else {
        ReplaceAllSingle(x, '>', "&gt;");
        if x == '>' {
          TailUntouched("&gt;", 3);
        } else {
          ReplaceAllSingle(x, '"', "&quot;");
          if x == '"' {
            TailUntouched("&quot;", 4);
          } else {
            ReplaceAllSingle(x, '\'', "&#39;");
          }
        }
      }
    }
  }

  lemma ChainConcat(a: string, b: string)
    ensures Chain(a + b) == Chain(a) + Chain(b)
  {
    var r1a, r1b := ReplaceAll(a, '&', "&amp;"), ReplaceAll(b, '&', "&amp;");
    ReplaceAllConcat(a, b, '&', "&amp;");
    var r2a, r2b := ReplaceAll(r1a, '<', "&lt;"), ReplaceAll(r1b, '<', "&lt;");
    ReplaceAllConcat(r1a, r1b, '<', "&lt;");
    var r3a, r3b := ReplaceAll(r2a, '>', "&gt;"), ReplaceAll(r2b, '>', "&gt;");
    ReplaceAllConcat(r2a, r2b, '>', "&gt;");
    var r4a, r4b := ReplaceAll(r3a, '"', "&quot;"), ReplaceAll(r3b, '"', "&quot;");
    ReplaceAllConcat(r3a, r3b, '"', "&quot;");
    ReplaceAllConcat(r4a, r4b, '\'', "&#39;");
  }

  /** The five chained replacements do what one entity-per-character pass does: no
      later replacement touches an entity an earlier one produced. */
  lemma {:induction false} EscapeIsOnePass(s: string)
    ensures Chain(s) == OnePass(s)
    decreases |s|
  {
    if |s| == 0 {
    } else {
      assert s == [s[0]] + s[1..];
      ChainConcat([s[0]], s[1..]);
      ChainOfChar(s[0]);
      EscapeIsOnePass(s[1..]);
    }
  }

  lemma EscapeStepEscaped(c: char, rest: string)
    requires IsEscaped(rest)
    ensures IsEscaped(EscapeChar(c) + rest)
  {
    var r := EscapeChar(c) + rest;
    if c == '&' {
      assert r[..5] == "&amp;" && r[5..] == rest;
    } else if c == '<' {
      assert r[..4] == "&lt;" && r[4..] == rest;
      assert r[1] == 'l';
    } else if c == '>' {
      assert r[..4] == "&gt;" && r[4..] == rest;
      assert r[1] == 'g';
    } else if c == '"' {
      assert r[..6] == "&quot;" && r[6..] == rest;
      assert r[1] == 'q';
    } else if c == '\'' {
      assert r[..5] == "&#39;" && r[5..] == rest;
      assert r[1] == '#';
    } else {
      assert r[0] == c && r[1..] == rest;
    }
  }

  lemma {:induction false} OnePassIsEscaped(s: string)
    ensures IsEscaped(OnePass(s))
    ensures |OnePass(s)| >= |s|
    decreases |s|
  {
    if |s| > 0 {
      OnePassIsEscaped(s[1..]);
      EscapeStepEscaped(s[0], OnePass(s[1..]));
    }
  }

  lemma UnescapeStep(c: char, rest: string)
    ensures Unescape(EscapeChar(c) + rest) == [c] + Unescape(rest)
  {
    if c == '&' {
      UnescapeAmp(rest);
    } else if c == '<' {
      UnescapeLt(rest);
    } else if c == '>' {
      UnescapeGt(rest);
    } else if c == '"' {
      UnescapeQuot(rest);
    } else if c == '\'' {
      UnescapeApos(rest);
    } else {
      var r := EscapeChar(c) + rest;
      assert r[0] == c && r[1..] == rest;
    }
  }

  lemma UnescapeAmp(rest: string)
    ensures Unescape("&amp;" + rest) == "&" + Unescape(rest)
  {
    var r := "&amp;" + rest;
    assert r[..5] == "&amp;" && r[5..] == rest;
  }

  lemma UnescapeLt(rest: string)
    ensures Unescape("&lt;" + rest) == "<" + Unescape(rest)
  {
    var r := "&lt;" + rest;
    assert r[..4] == "&lt;" && r[4..] == rest;
    assert r[1] == 'l';
  }

  lemma UnescapeGt(rest: string)
    ensures Unescape("&gt;" + rest) == ">" + Unescape(rest)
  {
    var r := "&gt;" + rest;
    assert r[..4] == "&gt;" && r[4..] == rest;
    assert r[1] == 'g';
  }

  lemma UnescapeQuot(rest: string)
    ensures Unescape("&quot;" + rest) == "\"" + Unescape(rest)
  {
    var r := "&quot;" + rest;
    assert r[..6] == "&quot;" && r[6..] == rest;
    assert r[1] == 'q';
  }

  lemma UnescapeApos(rest: string)
    ensures Unescape("&#39;" + rest) == "'" + Unescape(rest)
  {
    var r := "&#39;" + rest;
    assert r[..5] == "&#39;" && r[5..] == rest;
    assert r[1] == '#';
  }

  /** Decoding an escaped string gives the original back. */
  lemma {:induction false} UnescapeOnePass(s: string)
    ensures Unescape(OnePass(s)) == s
    decreases |s|
  {
    if |s| > 0 {
      UnescapeOnePass(s[1..]);
      UnescapeStep(s[0], OnePass(s[1..]));
    }
  }

  /** Text without special characters is left untouched. */
  lemma {:induction false} EscapePlainText(s: string)
    requires forall i | 0 <= i < |s| :: s[i] != '&' && !IsMarkup(s[i])
    ensures EscapeHtml(Some(s)) == s
    decreases |s|
  {
    EscapeIsOnePass(s);
    OnePassOfPlain(s);
  }

  lemma {:induction false} OnePassOfPlain(s: string)
    requires forall i | 0 <= i < |s| :: s[i] != '&' && !IsMarkup(s[i])
    ensures OnePass(s) == s
    decreases |s|
  {
    if |s| > 0 {
      OnePassOfPlain(s[1..]);
    }
  }
}
