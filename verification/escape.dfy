/**
 * `escapeHtml` of docs/script.js, which makes the free-text notes safe to paste
 * into the printable report: three global replaces, `&` first, then `<`, then `>`.
 */
module Escape {

  const Amp := "&amp;"
  const Lt := "&lt;"
  const Gt := "&gt;"

  /** `s.replace(/c/g, rep)`: every occurrence of `c` replaced by `rep`. */
  function ReplaceAll(s: string, c: char, rep: string): string {
    if s == [] then []
    else (if s[0] == c then rep else [s[0]]) + ReplaceAll(s[1..], c, rep)
  }

  /** A text without `c` is left as it is by replacing `c`. */
  lemma {:induction false} ReplaceAllAbsent(s: string, c: char, rep: string)
    requires c !in s
    ensures ReplaceAll(s, c, rep) == s
  {
    if s != [] {
      ReplaceAllAbsent(s[1..], c, rep);
      assert s == [s[0]] + s[1..];
    }
  }

  /** After the replace no `c` is left, unless the replacement brings one in. */
  lemma {:induction false} ReplaceAllRemoves(s: string, c: char, rep: string)
    requires c !in rep
    ensures c !in ReplaceAll(s, c, rep)
  {
    if s != [] {
      ReplaceAllRemoves(s[1..], c, rep);
    }
  }

  /** The entity that stands for one character in escaped text. */
  function EscapeChar(c: char): (e: string)
    ensures e != [] && '<' !in e && '>' !in e
    ensures e[0] == '&' <==> c in "&<>"
  {
    match c
    case '&' => Amp
    case '<' => Lt
    case '>' => Gt
    case _ => [c]
  }

  /** `s` begins with one of the three entities. */
  predicate StartsWithEntity(s: string) {
    (|s| >= 5 && s[..5] == Amp) || (|s| >= 4 && (s[..4] == Lt || s[..4] == Gt))
  }

  /** Every `&` in `s` begins an entity. */
  predicate AmpersandsAreEntities(s: string) {
    forall k :: 0 <= k < |s| && s[k] == '&' ==> StartsWithEntity(s[k..])
  }

  /** The escaping as a character-by-character map; its output holds no `<` or `>`,
      and each of its `&` begins an entity. */
  function Escape(s: string): (r: string)
    ensures '<' !in r && '>' !in r
    ensures AmpersandsAreEntities(r)
  {
    if s == [] then []
    else
      var e, rest := EscapeChar(s[0]), Escape(s[1..]);
      assert forall k :: |e| <= k < |e + rest| ==> (e + rest)[k..] == rest[k - |e|..];
      assert forall k :: 0 < k < |e| ==> e[k] != '&';
      assert e[0] == '&' ==> (e + rest)[0..] == e + rest;
      e + rest
  }

  lemma {:induction false} ReplaceAllAppend(a: string, b: string, c: char, rep: string)
    ensures ReplaceAll(a + b, c, rep) == ReplaceAll(a, c, rep) + ReplaceAll(b, c, rep)
  {
    if a == [] {
      assert a + b == b;
    } else {
      assert (a + b)[1..] == a[1..] + b;
      ReplaceAllAppend(a[1..], b, c, rep);
    }
  }

  /** `escapeHtml` as the script writes it: three chained replaces. What they
      compute is the character map `Escape`. */
  function EscapeHtml(t: string): (r: string)
    ensures r == Escape(t)
  {
    ChainedReplacesAreEscape(t);
    ReplaceAll(ReplaceAll(ReplaceAll(t, '&', Amp), '<', Lt), '>', Gt)
  }

  /** On one character the three chained replaces give that character's entity. */
  lemma ChainedReplacesOneChar(c: char)
    ensures ReplaceAll(ReplaceAll(ReplaceAll([c], '&', Amp), '<', Lt), '>', Gt) == EscapeChar(c)
  {
    var a1 := ReplaceAll([c], '&', Amp);
    assert [c][1..] == [];
    assert a1 == (if c == '&' then Amp else [c]) + ReplaceAll([], '&', Amp);
    var a2 := ReplaceAll(a1, '<', Lt);
    if c == '<' {
      assert a2 == Lt + ReplaceAll([], '<', Lt);
    } else {
      ReplaceAllAbsent(a1, '<', Lt);
    }
    if c == '>' {
      assert ReplaceAll(a2, '>', Gt) == Gt + ReplaceAll([], '>', Gt);
    } else {
      ReplaceAllAbsent(a2, '>', Gt);
    }
  }

  /** The three chained replaces compute the character map: because `&` is
      replaced first, the `&` that the later replaces introduce is never escaped
      again. */
  lemma {:induction false} ChainedReplacesAreEscape(t: string)
    ensures ReplaceAll(ReplaceAll(ReplaceAll(t, '&', Amp), '<', Lt), '>', Gt) == Escape(t)
  {
    if t != [] {
      var c, rest := t[0], t[1..];
      assert t == [c] + rest;
      ReplaceAllAppend([c], rest, '&', Amp);
      var a1 := ReplaceAll([c], '&', Amp);
      ReplaceAllAppend(a1, ReplaceAll(rest, '&', Amp), '<', Lt);
      var a2 := ReplaceAll(a1, '<', Lt);
      ReplaceAllAppend(a2, ReplaceAll(ReplaceAll(rest, '&', Amp), '<', Lt), '>', Gt);
      ChainedReplacesOneChar(c);
      ChainedReplacesAreEscape(rest);
    }
  }

  /** Escaped text holds no markup characters, and every `&` in it begins an entity. */
  lemma EscapeHtmlRemovesMarkup(t: string)
    ensures '<' !in EscapeHtml(t) && '>' !in EscapeHtml(t)
    ensures AmpersandsAreEntities(EscapeHtml(t))
  {
  }

  /** Text free of `&`, `<` and `>` comes back unchanged. */
  lemma EscapeHtmlKeepsPlainText(t: string)
    requires '&' !in t && '<' !in t && '>' !in t
    ensures EscapeHtml(t) == t
  {
    ReplaceAllAbsent(t, '&', Amp);
    ReplaceAllAbsent(t, '<', Lt);
    ReplaceAllAbsent(t, '>', Gt);
  }

  /** Decoding of the three entities; any other character is copied. */
  function Unescape(s: string): string {
    if s == [] then []
    else if |s| >= 5 && s[..5] == Amp then "&" + Unescape(s[5..])
    else if |s| >= 4 && s[..4] == Lt then "<" + Unescape(s[4..])
    else if |s| >= 4 && s[..4] == Gt then ">" + Unescape(s[4..])
    else [s[0]] + Unescape(s[1..])
  }

  lemma EscapeCons(c: char, u: string)
    ensures Escape([c] + u) == EscapeChar(c) + Escape(u)
  {
    assert ([c] + u)[1..] == u;
  }

  lemma UnescapeFrontAmp(u: string)
    ensures Unescape(Amp + u) == "&" + Unescape(u)
  {
    assert (Amp + u)[..5] == Amp && (Amp + u)[5..] == u;
  }

  lemma UnescapeFrontLt(u: string)
    ensures Unescape(Lt + u) == "<" + Unescape(u)
  {
    var r := Lt + u;
    assert r[..4] == Lt && r[4..] == u;
    assert |r| >= 5 ==> r[..5][1] == 'l';
  }

  lemma UnescapeFrontGt(u: string)
    ensures Unescape(Gt + u) == ">" + Unescape(u)
  {
    var r := Gt + u;
    assert r[..4] == Gt && r[4..] == u;
    assert |r| >= 5 ==> r[..5][1] == 'g';
    assert r[..4][1] != Lt[1];
  }

  lemma UnescapeFrontPlain(c: char, u: string)
    requires c != '&'
    ensures Unescape([c] + u) == [c] + Unescape(u)
  {
    var r := [c] + u;
    assert r[1..] == u;
    assert |r| >= 5 ==> r[..5][0] == c;
    assert |r| >= 4 ==> r[..4][0] == c;
  }

  /** `Unescape` decodes one escaped character at the front of a text. */
  lemma UnescapeFront(c: char, u: string)
    ensures Unescape(EscapeChar(c) + u) == [c] + Unescape(u)
  {
    if c == '&' {
      UnescapeFrontAmp(u);
    } else if c == '<' {
      UnescapeFrontLt(u);
    } else if c == '>' {
      UnescapeFrontGt(u);
    } else {
      UnescapeFrontPlain(c, u);
    }
  }

  /** Unescaping the escaped text gives back the original. */
  lemma {:induction false} UnescapeEscape(t: string)
    ensures Unescape(Escape(t)) == t
  {
    if t != [] {
      UnescapeFront(t[0], Escape(t[1..]));
      UnescapeEscape(t[1..]);
      assert t == [t[0]] + t[1..];
    }
  }

  /** Dropping a prefix keeps every `&` an entity start. */
  lemma AmpersandsAreEntitiesSuffix(s: string, n: nat)
    requires n <= |s| && AmpersandsAreEntities(s)
    ensures AmpersandsAreEntities(s[n..])
  {
    forall k | 0 <= k < |s[n..]| && s[n..][k] == '&' ensures StartsWithEntity(s[n..][k..]) {
      assert s[n + k] == '&' && s[n + k..] == s[n..][k..];
    }
  }

  /** Conversely every text without markup characters whose `&` all begin entities is
      the escaping of something: of its unescaping. */
  lemma {:induction false} EscapeUnescape(s: string)
    requires '<' !in s && '>' !in s && AmpersandsAreEntities(s)
    ensures Escape(Unescape(s)) == s
  {
    if s != [] {
      if s[0] == '&' {
        assert s[0..] == s;
      }
      var x, n := s[0], 1;
      if |s| >= 5 && s[..5] == Amp {
        x, n := '&', 5;
      } else if |s| >= 4 && s[..4] == Lt {
        x, n := '<', 4;
      } else if |s| >= 4 && s[..4] == Gt {
        x, n := '>', 4;
      }
      assert Unescape(s) == [x] + Unescape(s[n..]);
      assert EscapeChar(x) == s[..n];
      AmpersandsAreEntitiesSuffix(s, n);
      EscapeUnescape(s[n..]);
      EscapeCons(x, Unescape(s[n..]));
      assert s == s[..n] + s[n..];
    }
  }

  /** `escapeHtml` is the escaping function `Escape`, so it is one-to-one and
      undone by `Unescape`. */
  lemma EscapeHtmlRoundTrip(t: string)
    ensures Unescape(EscapeHtml(t)) == t
  {
    UnescapeEscape(t);
  }

  /** Replacing `&` last instead would escape the `&` of `&lt;` a second time. */
  lemma AmpersandLastDoubleEscapes()
    ensures ReplaceAll(ReplaceAll(ReplaceAll("<", '<', Lt), '>', Gt), '&', Amp) == Amp + "lt;"
    ensures EscapeHtml("<") == Lt
  {
    var lt := ReplaceAll("<", '<', Lt);
    assert "<"[1..] == [];
    assert lt == Lt + [];
    ReplaceAllAbsent(Lt, '>', Gt);
    var amp := "&";
    assert Lt == amp + "lt;";
    ReplaceAllAppend(amp, "lt;", '&', Amp);
    ReplaceAllAbsent("lt;", '&', Amp);
    assert amp[1..] == [];
    assert ReplaceAll(amp, '&', Amp) == Amp + [];
    ChainedReplacesOneChar('<');
  }
}
