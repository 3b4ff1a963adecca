/** `escapeHtml` of the client (static/app.js): five chained global
    replacements that make a task's title and description safe to place in a
    report table cell. */
module HtmlEscape {
  import opened Common

  const Amp := "&amp;"
  const Lt := "&lt;"
  const Gt := "&gt;"
  const Quot := "&quot;"
  const Apos := "&#039;"

  /** `s.replace(/c/g, rep)` for a single character `c`. */
  function ReplaceAll(s: string, c: char, rep: string): (r: string)
  {
    if s == [] then []
    else (if s[0] == c then rep else [s[0]]) + ReplaceAll(s[1..], c, rep)
  }

  /** The replacement chain exactly as written: `&` first, then `<`, `>`,
      `"` and `'`. */
  function ReplaceChain(s: string): string {
    ReplaceAll(ReplaceAll(ReplaceAll(ReplaceAll(ReplaceAll(s, '&', Amp), '<', Lt), '>', Gt), '"', Quot), '\'', Apos)
  }

  /** `escapeHtml(text)`; the falsy input (the empty string here) gives `''`. */
  function EscapeHtml(text: string): (r: string)
    ensures text == "" ==> r == ""
    ensures forall i :: 0 <= i < |r| ==> !IsMarkupChar(r[i])
    ensures forall i :: 0 <= i < |r| && r[i] == '&' ==> StartsWithEntity(r[i..])
    ensures Unescape(r) == text
  {
    if text == "" then ""
    else
      ChainIsPerCharacter(text);
      EscapedHasNoMarkup(text);
      EscapedAmpersandsStartEntities(text);
      UnescapeInvertsEscape(text);
      ReplaceChain(text)
  }

  // ----- a one-pass reference definition -----

  predicate IsMarkupChar(c: char) {
    c == '<' || c == '>' || c == '"' || c == '\''
  }

  function EscapeChar(c: char): string {
    match c
    case '&' => Amp
    case '<' => Lt
    case '>' => Gt
    case '"' => Quot
    case '\'' => Apos
    case _ => [c]
  }

  /** Each character replaced by its escape, in one left-to-right pass. */
  function EscapeEach(s: string): string {
    if s == [] then [] else EscapeChar(s[0]) + EscapeEach(s[1..])
  }

  lemma {:induction false} ReplaceConcat(a: string, b: string, c: char, rep: string)
    ensures ReplaceAll(a + b, c, rep) == ReplaceAll(a, c, rep) + ReplaceAll(b, c, rep)
  {
    if a == [] {
      assert a + b == b;
    } else {
      assert (a + b)[0] == a[0] && (a + b)[1..] == a[1..] + b;
      ReplaceConcat(a[1..], b, c, rep);
    }
  }

  lemma {:induction false} ReplaceAbsent(s: string, c: char, rep: string)
    requires c !in s
    ensures ReplaceAll(s, c, rep) == s
  {
    if s != [] {
      ReplaceAbsent(s[1..], c, rep);
      assert s == [s[0]] + s[1..];
    }
  }

  lemma ReplaceOne(x: char, c: char, rep: string)
    ensures ReplaceAll([x], c, rep) == if x == c then rep else [x]
  {
    assert [x][1..] == [];
  }

  /** The replacements after the first one, applied to `s`. */
  lemma LaterStepsFrom(s: string, k: nat)
    requires 1 <= k <= 5
    requires k <= 1 ==> '<' !in s
    requires k <= 2 ==> '>' !in s
    requires k <= 3 ==> '"' !in s
    requires k <= 4 ==> '\'' !in s
    ensures k == 1 ==> ReplaceAll(ReplaceAll(ReplaceAll(ReplaceAll(s, '<', Lt), '>', Gt), '"', Quot), '\'', Apos) == s
    ensures k == 2 ==> ReplaceAll(ReplaceAll(ReplaceAll(s, '>', Gt), '"', Quot), '\'', Apos) == s
    ensures k == 3 ==> ReplaceAll(ReplaceAll(s, '"', Quot), '\'', Apos) == s
    ensures k == 4 ==> ReplaceAll(s, '\'', Apos) == s
  {
    if k <= 1 { ReplaceAbsent(s, '<', Lt); }
    if k <= 2 { ReplaceAbsent(s, '>', Gt); }
    if k <= 3 { ReplaceAbsent(s, '"', Quot); }
    if k <= 4 { ReplaceAbsent(s, '\'', Apos); }
  }

  lemma ChainOfOne(c: char)
    ensures ReplaceChain([c]) == EscapeChar(c)
  {
    ReplaceOne(c, '&', Amp);
    if c == '&' {
      LaterStepsFrom(Amp, 1);
    } else {
      ReplaceOne(c, '<', Lt);
      if c == '<' {
        LaterStepsFrom(Lt, 2);
      } else {
        ReplaceOne(c, '>', Gt);
        if c == '>' {
          LaterStepsFrom(Gt, 3);
        } else {
          ReplaceOne(c, '"', Quot);
          if c == '"' {
            LaterStepsFrom(Quot, 4);
          } else {
            ReplaceOne(c, '\'', Apos);
          }
        }
      }
    }
  }

  /** Because `&` is replaced first, no entity produced by a later step is
      escaped again: the chain equals the one-pass escape. */
  lemma {:induction false} ChainIsPerCharacter(s: string)
    ensures ReplaceChain(s) == EscapeEach(s)
  {
    if s != [] {
      var h, t := [s[0]], s[1..];
      assert s == h + t;
      ReplaceConcat(h, t, '&', Amp);
      var a1, b1 := ReplaceAll(h, '&', Amp), ReplaceAll(t, '&', Amp);
      ReplaceConcat(a1, b1, '<', Lt);
      var a2, b2 := ReplaceAll(a1, '<', Lt), ReplaceAll(b1, '<', Lt);
      ReplaceConcat(a2, b2, '>', Gt);
      var a3, b3 := ReplaceAll(a2, '>', Gt), ReplaceAll(b2, '>', Gt);
      ReplaceConcat(a3, b3, '"', Quot);
      var a4, b4 := ReplaceAll(a3, '"', Quot), ReplaceAll(b3, '"', Quot);
      ReplaceConcat(a4, b4, '\'', Apos);
      assert ReplaceChain(s) == ReplaceChain(h) + ReplaceChain(t);
      ChainOfOne(s[0]);
      ChainIsPerCharacter(t);
    }
  }

  lemma {:induction false} EscapedHasNoMarkup(s: string)
    ensures forall i :: 0 <= i < |EscapeEach(s)| ==> !IsMarkupChar(EscapeEach(s)[i])
  {
    if s != [] {
      EscapedHasNoMarkup(s[1..]);
      var e, rest := EscapeChar(s[0]), EscapeEach(s[1..]);
      assert forall i :: 0 <= i < |e| ==> !IsMarkupChar(e[i]);
      assert forall i :: 0 <= i < |rest| ==> (e + rest)[|e| + i] == rest[i];
    }
  }

  // ----- entities and the inverse -----

  predicate StartsWithEntity(s: string) {
    StartsWith(s, Amp) || StartsWith(s, Lt) || StartsWith(s, Gt) ||
    StartsWith(s, Quot) || StartsWith(s, Apos)
  }

  lemma {:induction false} EscapedAmpersandsStartEntities(s: string)
    ensures forall i :: 0 <= i < |EscapeEach(s)| && EscapeEach(s)[i] == '&' ==>
      StartsWithEntity(EscapeEach(s)[i..])
  {
    if s != [] {
      EscapedAmpersandsStartEntities(s[1..]);
      var e, rest := EscapeChar(s[0]), EscapeEach(s[1..]);
      var r := e + rest;
      assert EscapeEach(s) == r;
      forall i | 0 <= i < |r| && r[i] == '&'
        ensures StartsWithEntity(r[i..])
      {
        if i < |e| {
          assert e[i] == '&';
          assert i == 0;
          assert r[..|e|] == e;
        } else {
          assert r[i..] == rest[i - |e|..];
        }
      }
    }
  }

  /** Decoding the five entities, left to right. */
  function Unescape(s: string): string
    decreases |s|
  {
    if s == [] then []
    else if s[0] == '&' && StartsWith(s, Amp) then "&" + Unescape(s[|Amp|..])
    else if s[0] == '&' && StartsWith(s, Lt) then "<" + Unescape(s[|Lt|..])
    else if s[0] == '&' && StartsWith(s, Gt) then ">" + Unescape(s[|Gt|..])
    else if s[0] == '&' && StartsWith(s, Quot) then "\"" + Unescape(s[|Quot|..])
    else if s[0] == '&' && StartsWith(s, Apos) then "'" + Unescape(s[|Apos|..])
    else [s[0]] + Unescape(s[1..])
  }

  lemma StartsWithAt(s: string, p: string, k: int)
    requires 0 <= k < |p|
    ensures StartsWith(s, p) ==> s[k] == p[k]
  {
    if StartsWith(s, p) {
      assert s[..|p|][k] == p[k];
    }
  }

  lemma UnescapeOne(c: char, rest: string)
    ensures Unescape(EscapeChar(c) + rest) == [c] + Unescape(rest)
  {
    var e := EscapeChar(c);
    var s := e + rest;
    assert s[..|e|] == e && s[|e|..] == rest;
    StartsWithAt(s, Amp, 1);
    StartsWithAt(s, Lt, 1);
    StartsWithAt(s, Gt, 1);
    StartsWithAt(s, Quot, 1);
    if c != '&' && c != '<' && c != '>' && c != '"' && c != '\'' {
      assert s[0] == c && s[1..] == rest;
    }
  }

  /** Unescaping the escaped text gives the text back. */
  lemma {:induction false} UnescapeInvertsEscape(s: string)
    ensures Unescape(EscapeEach(s)) == s
  {
    if s != [] {
      UnescapeOne(s[0], EscapeEach(s[1..]));
      UnescapeInvertsEscape(s[1..]);
      assert s == [s[0]] + s[1..];
    }
  }

  /** Text without special characters is left as it is. */
  lemma {:induction false} PlainTextUnchanged(s: string)
    requires forall i :: 0 <= i < |s| ==> s[i] != '&' && !IsMarkupChar(s[i])
    ensures EscapeHtml(s) == s
  {
    ChainIsPerCharacter(s);
    EachOfPlain(s);
  }

  lemma {:induction false} EachOfPlain(s: string)
    requires forall i :: 0 <= i < |s| ==> s[i] != '&' && !IsMarkupChar(s[i])
    ensures EscapeEach(s) == s
  {
    if s != [] {
      EachOfPlain(s[1..]);
      assert s == [s[0]] + s[1..];
    }
  }
}
