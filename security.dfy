/**
 * Input security helpers (src/utils/security.js): the `sanitizeInput`
 * pattern strip and entity encoding, the three validators, and the
 * client-side sliding-window rate limiter.
 *
 * The four regular expressions of `sanitizeInput` are written out as
 * scanners that say how long a match starting at the front of a string is.
 * All four are case-insensitive without the Unicode flag, so a pattern letter
 * matches exactly its two ASCII cases, and `\w` is `[A-Za-z0-9_]`.
 */
module Security {
  import opened JsText
  import Constants

  // =============================================================== patterns

  datatype Pattern =
    | ScriptTag       // /<script[^>]*>.*?<\/script>/gi
    | IframeTag       // /<iframe[^>]*>.*?<\/iframe>/gi
    | JavascriptUri   // /javascript:/gi
    | EventHandler    // /on\w+\s*=/gi

  /** `pat`, written in lower case, matches the front of `s` ignoring ASCII case. */
  predicate PrefixCi(pat: string, s: string)
  {
    |pat| <= |s| && forall i :: 0 <= i < |pat| ==> LowerChar(s[i]) == pat[i]
  }

  predicate IsWordChar(c: char)
  {
    ('a' <= c <= 'z') || ('A' <= c <= 'Z') || ('0' <= c <= '9') || c == '_'
  }

  /** The first `c` at or after `k`. */
  function FindFrom(s: string, c: char, k: nat): (r: Option<nat>)
    requires k <= |s|
    ensures r.Some? ==> k <= r.value < |s| && s[r.value] == c
    ensures r.None? ==> forall i :: k <= i < |s| ==> s[i] != c
    decreases |s| - k
  {
    if k == |s| then None else if s[k] == c then Some(k) else FindFrom(s, c, k + 1)
  }

  /**
   * The lazy `.*?` followed by `close`: the end of the first `close` found at
   * or after `k`, provided no line terminator comes before it.
   */
  function LazyUntil(close: string, s: string, k: nat): (r: Option<nat>)
    requires k <= |s|
    ensures r.Some? ==> k + |close| <= r.value <= |s|
    decreases |s| - k
  {
    if PrefixCi(close, s[k..]) then Some(k + |close|)
    else if k == |s| || IsLineTerminator(s[k]) then None
    else LazyUntil(close, s, k + 1)
  }

  /** `<open[^>]*>.*?close` at the front of `s`: `[^>]*` can only stop at the first `>`. */
  function TagMatch(open: string, close: string, s: string): (r: Option<nat>)
    ensures r.Some? ==> |open| < r.value <= |s| && PrefixCi(open, s)
  {
    if !PrefixCi(open, s) then None
    else match FindFrom(s, '>', |open|)
      case None => None
      case Some(j) => LazyUntil(close, s, j + 1)
  }

  /** End of the maximal run of word characters starting at `k`. */
  function WordEnd(s: string, k: nat): (e: nat)
    requires k <= |s|
    ensures k <= e <= |s|
    ensures forall i :: k <= i < e ==> IsWordChar(s[i])
    ensures e < |s| ==> !IsWordChar(s[e])
    decreases |s| - k
  {
    if k < |s| && IsWordChar(s[k]) then WordEnd(s, k + 1) else k
  }

  /** End of the maximal run of whitespace starting at `k`. */
  function SpaceEnd(s: string, k: nat): (e: nat)
    requires k <= |s|
    ensures k <= e <= |s|
    ensures forall i :: k <= i < e ==> IsWhitespace(s[i])
    ensures e < |s| ==> !IsWhitespace(s[e])
    decreases |s| - k
  {
    if k < |s| && IsWhitespace(s[k]) then SpaceEnd(s, k + 1) else k
  }

  /**
   * `on\w+\s*=` at the front of `s`. Backtracking cannot help either greedy
   * run: a shorter `\w+` leaves a word character where `\s` or `=` is needed,
   * and a shorter `\s*` leaves whitespace where `=` is needed.
   */
  function HandlerMatch(s: string): (r: Option<nat>)
    ensures r.Some? ==> 4 <= r.value <= |s| && PrefixCi("on", s)
  {
    if !PrefixCi("on", s) then None
    else
      var w := WordEnd(s, 2);
      if w == 2 then None
      else
        var e := SpaceEnd(s, w);
        if e < |s| && s[e] == '=' then Some(e + 1) else None
  }

  /** Length of the match of `p` that starts at the front of `s`, if any. */
  function MatchAt(p: Pattern, s: string): (r: Option<nat>)
    ensures r.Some? ==> 0 < r.value <= |s|
  {
    match p
    case ScriptTag => TagMatch("<script", "</script>", s)
    case IframeTag => TagMatch("<iframe", "</iframe>", s)
    case JavascriptUri => if PrefixCi("javascript:", s) then Some(11) else None
    case EventHandler => HandlerMatch(s)
  }

  /** `s.replace(p, '')` with the global flag: leftmost matches, left to right, never overlapping. */
  function Strip(p: Pattern, s: string): (r: string)
    ensures |r| <= |s|
    decreases |s|
  {
    if s == [] then []
    else match MatchAt(p, s)
      case Some(n) => Strip(p, s[n..])
      case None => [s[0]] + Strip(p, s[1..])
  }

  /** The four strips, once each, in the listed order. */
  function StripPatterns(s: string): string
  {
    Strip(EventHandler, Strip(JavascriptUri, Strip(IframeTag, Strip(ScriptTag, s))))
  }

  // =============================================================== encoding

  predicate IsSpecial(c: char)
  {
    c == '&' || c == '<' || c == '>' || c == '"' || c == '\'' || c == '/'
  }

  function EncodeChar(c: char): string
  {
    match c
    case '&' => "&amp;"
    case '<' => "&lt;"
    case '>' => "&gt;"
    case '"' => "&quot;"
    case '\'' => "&#39;"
    case '/' => "&#x2F;"
    case _ => [c]
  }

  predicate StartsWithEntity(x: string)
  {
    || StartsWith(x, "&amp;") || StartsWith(x, "&lt;") || StartsWith(x, "&gt;")
    || StartsWith(x, "&quot;") || StartsWith(x, "&#39;") || StartsWith(x, "&#x2F;")
  }

  /** No raw `< > " ' /`, and every `&` begins one of the six entities. */
  predicate Encoded(r: string)
  {
    forall i :: 0 <= i < |r| ==>
      && r[i] != '<' && r[i] != '>' && r[i] != '"' && r[i] != '\'' && r[i] != '/'
      && (r[i] == '&' ==> StartsWithEntity(r[i..]))
  }

  lemma EncodedCons(c: char, rest: string)
    requires Encoded(rest)
    ensures Encoded(EncodeChar(c) + rest)
  {
    var a := EncodeChar(c);
    var r := a + rest;
    EncodeCharShape(c);
    forall i | 0 <= i < |r|
      ensures r[i] != '<' && r[i] != '>' && r[i] != '"' && r[i] != '\'' && r[i] != '/'
      ensures r[i] == '&' ==> StartsWithEntity(r[i..])
    {
      if i < |a| {
        assert r[i] == a[i];
        if i == 0 && a[0] == '&' {
          assert r[0..] == r;
          EntityExtends(a, rest);
        }
      } else {
        assert r[i..] == rest[i - |a|..];
        assert r[i] == rest[i - |a|];
      }
    }
  }

  /** A replacement holds no raw special character and has an `&` only at its front, where an entity starts. */
  lemma EncodeCharShape(c: char)
    ensures var a := EncodeChar(c);
      && a != []
      && (forall i :: 0 <= i < |a| ==> a[i] != '<' && a[i] != '>' && a[i] != '"' && a[i] != '\'' && a[i] != '/')
      && (forall i :: 0 < i < |a| ==> a[i] != '&')
      && (a[0] == '&' ==> StartsWithEntity(a))
  {
  }

  lemma PrefixExtends(x: string, y: string, p: string)
    requires StartsWith(x, p)
    ensures StartsWith(x + y, p)
  {
    assert (x + y)[..|p|] == x[..|p|];
  }

  lemma EntityExtends(x: string, y: string)
    requires StartsWithEntity(x)
    ensures StartsWithEntity(x + y)
  {
    if StartsWith(x, "&amp;") {
      PrefixExtends(x, y, "&amp;");
    } else if StartsWith(x, "&lt;") {
      PrefixExtends(x, y, "&lt;");
    } else if StartsWith(x, "&gt;") {
      PrefixExtends(x, y, "&gt;");
    } else if StartsWith(x, "&quot;") {
      PrefixExtends(x, y, "&quot;");
    } else if StartsWith(x, "&#39;") {
      PrefixExtends(x, y, "&#39;");
    } else {
      PrefixExtends(x, y, "&#x2F;");
    }
  }

  /** `replace(/[&<>"'/]/g, …)` with the entity map: every output of it is `Encoded`. */
  function Encode(t: string): (r: string)
    ensures Encoded(r)
  {
    if t == [] then []
    else
      var rest := Encode(t[1..]);
      EncodedCons(t[0], rest);
      EncodeChar(t[0]) + rest
  }

  /** Each character is replaced by its own encoding and nothing else changes: encoding maps character by character. */
  lemma {:induction false} EncodeAppend(a: string, b: string)
    ensures Encode(a + b) == Encode(a) + Encode(b)
  {
    if a == [] {
      assert a + b == b;
    } else {
      assert (a + b)[0] == a[0];
      assert (a + b)[1..] == a[1..] + b;
      EncodeAppend(a[1..], b);
    }
  }

  lemma EncodeSingle(c: char)
    ensures Encode([c]) == EncodeChar(c)
    ensures IsSpecial(c) || Encode([c]) == [c]
  {
    assert [c][1..] == [];
  }

  /** `sanitizeInput` on a string. */
  function SanitizeString(s: string): string
  {
    Encode(StripPatterns(s))
  }

  /** `sanitizeInput`: strings are stripped and encoded; any other value comes back unchanged. */
  function SanitizeInput(v: Value): (r: Value)
    ensures !v.Str? ==> r == v
    ensures v.Str? ==> r.Str? && Encoded(r.s)
  {
    if v.Str? then Str(SanitizeString(v.s)) else v
  }

  // =============================================================== fixed points

  predicate NoMatchIn(p: Pattern, s: string)
  {
    forall i :: 0 <= i < |s| ==> MatchAt(p, s[i..]).None?
  }

  predicate NoSpecials(s: string)
  {
    forall i :: 0 <= i < |s| ==> !IsSpecial(s[i])
  }

  /** Nothing for `sanitizeInput` to strip and nothing to encode. */
  predicate Clean(s: string)
  {
    && NoSpecials(s)
    && NoMatchIn(ScriptTag, s) && NoMatchIn(IframeTag, s)
    && NoMatchIn(JavascriptUri, s) && NoMatchIn(EventHandler, s)
  }

  lemma NoMatchInTail(p: Pattern, s: string)
    requires s != []
    ensures NoMatchIn(p, s) <==> MatchAt(p, s).None? && NoMatchIn(p, s[1..])
  {
    if NoMatchIn(p, s) {
      assert s[0..] == s;
      forall i | 0 <= i < |s| - 1
        ensures MatchAt(p, s[1..][i..]).None?
      {
        assert s[1..][i..] == s[i + 1..];
      }
    }
    if MatchAt(p, s).None? && NoMatchIn(p, s[1..]) {
      forall i | 0 <= i < |s|
        ensures MatchAt(p, s[i..]).None?
      {
        if i == 0 {
          assert s[0..] == s;
        } else {
          assert s[1..][i - 1..] == s[i..];
        }
      }
    }
  }

  /** A strip changes nothing exactly when its pattern matches nowhere. */
  lemma {:induction false} StripIdentityIff(p: Pattern, s: string)
    ensures Strip(p, s) == s <==> NoMatchIn(p, s)
    decreases |s|
  {
    if s != [] {
      NoMatchInTail(p, s);
      StripIdentityIff(p, s[1..]);
      match MatchAt(p, s)
      case Some(n) =>
        assert |Strip(p, s)| <= |s[n..]| < |s|;
      case None =>
        assert Strip(p, s) == [s[0]] + Strip(p, s[1..]);
        assert s == [s[0]] + s[1..];
    }
  }

  /** A strip that changes anything makes the string strictly shorter. */
  lemma {:induction false} StripShortens(p: Pattern, s: string)
    ensures Strip(p, s) != s ==> |Strip(p, s)| < |s|
    decreases |s|
  {
    if s != [] && MatchAt(p, s).None? {
      StripShortens(p, s[1..]);
      assert Strip(p, s) == [s[0]] + Strip(p, s[1..]);
      assert s == [s[0]] + s[1..];
    }
  }

  /** The first character a match of `p` must start with, up to ASCII case. */
  function Lead(p: Pattern): char
  {
    match p
    case ScriptTag => '<'
    case IframeTag => '<'
    case JavascriptUri => 'j'
    case EventHandler => 'o'
  }

  lemma MatchNeedsLead(p: Pattern, x: string)
    requires MatchAt(p, x).Some?
    ensures LowerChar(x[0]) == Lead(p)
  {
  }

  /** A string with no character folding to the pattern's first letter has no match of it. */
  lemma NoLeadNoMatch(p: Pattern, s: string)
    requires forall i :: 0 <= i < |s| ==> LowerChar(s[i]) != Lead(p)
    ensures NoMatchIn(p, s)
  {
    forall i | 0 <= i < |s|
      ensures MatchAt(p, s[i..]).None?
    {
      if MatchAt(p, s[i..]).Some? {
        MatchNeedsLead(p, s[i..]);
        assert false;
      }
    }
  }

  /** Matches of the `javascript:` and event-handler patterns never contain `;`. */
  lemma MatchHasNoSemicolon(p: Pattern, x: string)
    requires p == JavascriptUri || p == EventHandler
    requires MatchAt(p, x).Some?
    ensures forall i :: 0 <= i < MatchAt(p, x).value ==> x[i] != ';'
  {
    if p == EventHandler {
      var w := WordEnd(x, 2);
      var e := SpaceEnd(x, w);
      assert MatchAt(p, x).value == e + 1;
      forall i | 0 <= i <= e
        ensures x[i] != ';'
      {
        if i < 2 {
          assert LowerChar(x[i]) == "on"[i];
        } else if i < w {
          assert IsWordChar(x[i]);
        } else if i < e {
          assert IsWhitespace(x[i]);
        }
      }
    } else {
      forall i | 0 <= i < 11
        ensures x[i] != ';'
      {
        assert LowerChar(x[i]) == "javascript:"[i];
      }
    }
  }

  lemma {:induction false} CountCharAbsent(s: string, c: char)
    requires forall i :: 0 <= i < |s| ==> s[i] != c
    ensures CountChar(s, c) == 0
  {
    if s != [] {
      CountCharAbsent(s[1..], c);
    }
  }

  /** The `javascript:` and event-handler strips keep every `;`. */
  lemma {:induction false} StripKeepsSemicolons(p: Pattern, s: string)
    requires p == JavascriptUri || p == EventHandler
    ensures CountChar(Strip(p, s), ';') == CountChar(s, ';')
    decreases |s|
  {
    if s != [] {
      match MatchAt(p, s)
      case Some(n) =>
        MatchHasNoSemicolon(p, s);
        assert s == s[..n] + s[n..];
        CountCharAppend(s[..n], s[n..], ';');
        CountCharAbsent(s[..n], ';');
        StripKeepsSemicolons(p, s[n..]);
      case None =>
        CountCharAppend([s[0]], Strip(p, s[1..]), ';');
        StripKeepsSemicolons(p, s[1..]);
    }
  }

  function SpecialCount(t: string): nat
  {
    if t == [] then 0 else (if IsSpecial(t[0]) then 1 else 0) + SpecialCount(t[1..])
  }

  /** Encoding adds exactly one `;` per special character. */
  lemma {:induction false} EncodeSemicolons(t: string)
    ensures CountChar(Encode(t), ';') == CountChar(t, ';') + SpecialCount(t)
  {
    if t != [] {
      EncodeSemicolons(t[1..]);
      assert Encode(t) == EncodeChar(t[0]) + Encode(t[1..]);
      CountCharAppend(EncodeChar(t[0]), Encode(t[1..]), ';');
      EncodeCharSemicolons(t[0]);
    }
  }

  /** A replacement holds one `;` for a special character, and otherwise as many as the character itself. */
  lemma EncodeCharSemicolons(c: char)
    ensures CountChar(EncodeChar(c), ';') == (if c == ';' || IsSpecial(c) then 1 else 0)
  {
    var a := EncodeChar(c);
    if IsSpecial(c) {
      EncodeCharShape(c);
      var k := |a| - 1;
      assert a[k] == ';';
      assert forall i :: 0 <= i < k ==> a[i] != ';';
      CountCharAbsent(a[..k], ';');
      assert a == a[..k] + [';'];
      CountCharAppend(a[..k], [';'], ';');
    } else {
      assert a == [c];
    }
  }

  lemma {:induction false} EncodePlain(t: string)
    ensures SpecialCount(t) == 0 <==> NoSpecials(t)
    ensures NoSpecials(t) ==> Encode(t) == t
  {
    if t != [] {
      EncodePlain(t[1..]);
      NoSpecialsCons(t);
      assert t == [t[0]] + t[1..];
    }
  }

  lemma NoSpecialsCons(t: string)
    requires t != []
    ensures NoSpecials(t) <==> !IsSpecial(t[0]) && NoSpecials(t[1..])
  {
    assert forall i :: 0 < i < |t| ==> t[i] == t[1..][i - 1];
  }

  /**
   * `sanitizeInput` leaves a string unchanged exactly when the string is
   * clean: no `& < > " ' /` and no match of any strip pattern. (The count of
   * `;` rules out the other case: the strips that can apply keep every `;`,
   * while encoding adds one per special character.)
   */
  lemma SanitizeFixpointIff(s: string)
    ensures SanitizeString(s) == s <==> Clean(s)
  {
    if Clean(s) {
      CleanIsFixpoint(s);
    }
    if SanitizeString(s) == s {
      FixpointIsClean(s);
    }
  }

  lemma CleanIsFixpoint(s: string)
    requires Clean(s)
    ensures SanitizeString(s) == s
  {
    StripIdentityIff(ScriptTag, s);
    StripIdentityIff(IframeTag, s);
    StripIdentityIff(JavascriptUri, s);
    StripIdentityIff(EventHandler, s);
    assert StripPatterns(s) == s;
    EncodePlain(s);
  }

  /** Encoded text holds no `<`, so neither tag pattern can match in it. */
  lemma EncodedHasNoTags(s: string)
    requires Encoded(s)
    ensures NoMatchIn(ScriptTag, s) && NoMatchIn(IframeTag, s)
  {
    forall i | 0 <= i < |s|
      ensures LowerChar(s[i]) != '<'
    {
      assert s[i] != '<';
    }
    NoLeadNoMatch(ScriptTag, s);
    NoLeadNoMatch(IframeTag, s);
  }

  lemma FixpointIsClean(s: string)
    requires SanitizeString(s) == s
    ensures Clean(s)
  {
    EncodedHasNoTags(s);
    StripIdentityIff(ScriptTag, s);
    StripIdentityIff(IframeTag, s);
    var u := Strip(JavascriptUri, s);
    var t := Strip(EventHandler, u);
    assert StripPatterns(s) == t;
    StripKeepsSemicolons(JavascriptUri, s);
    StripKeepsSemicolons(EventHandler, u);
    EncodeSemicolons(t);
    assert SpecialCount(t) == 0;
    EncodePlain(t);
    assert t == s;
    StripShortens(JavascriptUri, s);
    StripIdentityIff(JavascriptUri, s);
    assert u == s;
    StripIdentityIff(EventHandler, s);
  }
  // =============================================================== examples

  /** Text with no `<`, no `j`/`J` and no `o`/`O` passes all four strips unchanged. */
  lemma StripsInert(s: string)
    requires forall i :: 0 <= i < |s| ==> LowerChar(s[i]) != '<' && LowerChar(s[i]) != 'j' && LowerChar(s[i]) != 'o'
    ensures StripPatterns(s) == s
  {
    NoLeadNoMatch(ScriptTag, s);
    NoLeadNoMatch(IframeTag, s);
    NoLeadNoMatch(JavascriptUri, s);
    NoLeadNoMatch(EventHandler, s);
    StripIdentityIff(ScriptTag, s);
    StripIdentityIff(IframeTag, s);
    StripIdentityIff(JavascriptUri, s);
    StripIdentityIff(EventHandler, s);
  }

  /** Not idempotent: a lone `&` is encoded, and the result is encoded again on the next call. */
  lemma AmpersandReencoded(amp: string, once: string, twice: string)
    requires amp == "&" && once == "&amp;" && twice == "&amp;amp;"
    ensures SanitizeString(amp) == once
    ensures SanitizeString(once) == twice
  {
    var tail := once[1..];
    AmpTailPlain(once, tail);
    assert amp + [] == amp;
    AmpersandOnce(amp, once, []);
    AmpersandOnce(amp, once, tail);
  }

  /** `&amp;` is `&` followed by a tail that strip and encoding leave alone. */
  lemma AmpTailPlain(once: string, tail: string)
    requires once == "&amp;" && tail == once[1..]
    ensures once == "&" + tail && once + tail == "&amp;amp;"
    ensures PlainText(tail) && forall i :: 0 <= i < |tail| ==> LowerChar(tail[i]) != 'j'
  {
    assert tail == "amp;";
  }

  /** A leading `&` is encoded, and a tail that neither strip nor encoding touches is kept. */
  lemma AmpersandOnce(amp: string, entity: string, tail: string)
    requires amp == "&" && entity == "&amp;"
    requires PlainText(tail)
    requires forall i :: 0 <= i < |tail| ==> LowerChar(tail[i]) != 'j'
    ensures SanitizeString(amp + tail) == entity + tail
  {
    var s := amp + tail;
    forall i | 0 <= i < |s|
      ensures LowerChar(s[i]) != '<' && LowerChar(s[i]) != 'j' && LowerChar(s[i]) != 'o'
    {
      if i > 0 {
        assert s[i] == tail[i - 1];
      }
    }
    StripsInert(s);
    assert NoSpecials(tail);
    EncodePlain(tail);
    EncodeAppend(amp, tail);
    EncodeSingle('&');
  }

  /** A prefix in which no `javascript:` starts is copied through unchanged by that strip. */
  lemma StripSkipsPrefix(a: string, t: string)
    requires forall i :: 0 <= i < |a| ==> !PrefixCi("javascript:", (a + t)[i..])
    ensures Strip(JavascriptUri, a + t) == a + Strip(JavascriptUri, t)
  {
    var s := a + t;
    forall i | 0 <= i < |a|
      ensures !PrefixCi("javascript:", s[i..])
    {
    }
    StripSkipsRange(s, 0, |a|);
    assert s[0..] == s && s[0..|a|] == a && s[|a|..] == t;
  }

  /** Between `j` and `k` no `javascript:` starts, so that stretch of `s` is copied. */
  lemma {:induction false} StripSkipsRange(s: string, j: nat, k: nat)
    requires j <= k <= |s|
    requires forall i :: j <= i < k ==> !PrefixCi("javascript:", s[i..])
    ensures Strip(JavascriptUri, s[j..]) == s[j..k] + Strip(JavascriptUri, s[k..])
    decreases k - j
  {
    if j < k {
      var x := s[j..];
      assert !PrefixCi("javascript:", x);
      assert x[0] == s[j] && x[1..] == s[j + 1..];
      StripNoMatch(JavascriptUri, x);
      StripSkipsRange(s, j + 1, k);
      assert s[j..k] == [s[j]] + s[j + 1..k];
    }
  }

  /** Where no match starts, the first character is copied. */
  lemma StripNoMatch(p: Pattern, s: string)
    requires s != [] && MatchAt(p, s).None?
    ensures Strip(p, s) == [s[0]] + Strip(p, s[1..])
  {
  }

  /** Where a match starts, it is dropped and the scan resumes after it. */
  lemma StripAtMatch(p: Pattern, s: string, n: nat)
    requires MatchAt(p, s) == Some(n)
    ensures Strip(p, s) == Strip(p, s[n..])
  {
  }

  /** No `javascript:` starts inside `java` when the text after it begins with `j`. */
  lemma JavaPrefixNoMatch(a: string, t: string)
    requires a == "java" && t != [] && t[0] == 'j'
    ensures forall i :: 0 <= i < |a| ==> MatchAt(JavascriptUri, (a + t)[i..]).None?
  {
    forall i | 0 <= i < |a|
      ensures !PrefixCi("javascript:", (a + t)[i..])
    {
      var x := (a + t)[i..];
      if i == 0 {
        assert x[4] == t[0];
        assert LowerChar(x[4]) != "javascript:"[4];
      } else {
        assert x[0] == a[i];
        assert LowerChar(x[0]) != "javascript:"[0];
      }
    }
  }

  /**
   * One pass per pattern: in `java` + `javascript:` + `script:` only the inner
   * `javascript:` matches, and removing it joins the rest into a new
   * `javascript:` that stays.
   */
  lemma SinglePassLeavesUri(a: string, m: string, r: string)
    requires a == "java" && m == "javascript:" && r == "script:"
    ensures Strip(JavascriptUri, a + m + r) == a + r
    ensures MatchAt(JavascriptUri, a + r) == Some(|a + r|)
  {
    var t := m + r;
    assert a + m + r == a + t;
    assert t[0] == m[0];
    JavaPrefixNoMatch(a, t);
    StripSkipsPrefix(a, t);
    UriThenRest(m, r);
    RejoinedUri(a, r);
  }

  /** The inner `javascript:` is removed and the `script:` after it is kept. */
  lemma UriThenRest(m: string, r: string)
    requires m == "javascript:" && r == "script:"
    ensures Strip(JavascriptUri, m + r) == r
  {
    var t := m + r;
    assert PrefixCi("javascript:", t) by {
      forall i | 0 <= i < 11
        ensures LowerChar(t[i]) == "javascript:"[i]
      {
        assert t[i] == m[i];
      }
    }
    assert t[11..] == r;
    StripAtMatch(JavascriptUri, t, 11);
    NoLeadNoMatch(JavascriptUri, r);
    StripIdentityIff(JavascriptUri, r);
  }

  /** Through the whole of `sanitizeInput`, `javajavascript:script:` comes out as `javascript:`. */
  lemma SanitizedUriSurvives(a: string, m: string, r: string)
    requires a == "java" && m == "javascript:" && r == "script:"
    ensures SanitizeString(a + m + r) == a + r
    ensures PrefixCi("javascript:", SanitizeString(a + m + r))
  {
    var s := a + m + r;
    var out := a + r;
    assert PlainText(a) && PlainText(m) && PlainText(r);
    PlainConcat(a, m);
    PlainConcat(a + m, r);
    PlainConcat(a, r);
    NoLeadNoMatch(ScriptTag, s);
    NoLeadNoMatch(IframeTag, s);
    StripIdentityIff(ScriptTag, s);
    StripIdentityIff(IframeTag, s);
    SinglePassLeavesUri(a, m, r);
    NoLeadNoMatch(EventHandler, out);
    StripIdentityIff(EventHandler, out);
    assert StripPatterns(s) == out;
    EncodePlain(out);
    RejoinedUri(a, r);
  }

  /** No tag opener, no `o`/`O` and nothing the encoder rewrites. */
  predicate PlainText(x: string)
  {
    forall i :: 0 <= i < |x| ==> LowerChar(x[i]) != '<' && LowerChar(x[i]) != 'o' && !IsSpecial(x[i])
  }

  lemma PlainConcat(x: string, y: string)
    requires PlainText(x) && PlainText(y)
    ensures PlainText(x + y)
  {
    forall i | 0 <= i < |x + y|
      ensures LowerChar((x + y)[i]) != '<' && LowerChar((x + y)[i]) != 'o' && !IsSpecial((x + y)[i])
    {
      if i < |x| {
        assert (x + y)[i] == x[i];
      } else {
        assert (x + y)[i] == y[i - |x|];
      }
    }
  }

  lemma RejoinedUri(a: string, r: string)
    requires a == "java" && r == "script:"
    ensures |a + r| == 11 && PrefixCi("javascript:", a + r)
  {
    forall i | 0 <= i < 11
      ensures LowerChar((a + r)[i]) == "javascript:"[i]
    {
      if i < 4 {
        assert (a + r)[i] == a[i];
      } else {
        assert (a + r)[i] == r[i - 4];
      }
    }
  }

  /** The event-handler pattern also eats ordinary prose: `ondition =` goes. */
  lemma HandlerEatsProse()
    ensures Strip(EventHandler, "condition = 1") == "c 1"
  {
    var s := "condition = 1";
    var t := s[1..];
    var rest := " 1";
    assert !PrefixCi("on", s) by { assert LowerChar(s[0]) != 'o'; }
    HandlerInProse(t);
    assert t[10..] == rest;
    NoLeadNoMatch(EventHandler, rest);
    StripIdentityIff(EventHandler, rest);
    assert Strip(EventHandler, t) == rest;
  }

  /** In `ondition = 1` the handler pattern takes `ondition =`: the word run, the space, the `=`. */
  lemma HandlerInProse(t: string)
    requires t == "ondition = 1"
    ensures MatchAt(EventHandler, t) == Some(10)
  {
    assert WordEnd(t, 8) == 8;
    assert WordEnd(t, 2) == 8;
    assert SpaceEnd(t, 9) == 9;
    assert SpaceEnd(t, 8) == 9;
    assert PrefixCi("on", t);
  }

  /** A bare `javascript:`, in any case mix, sanitises to nothing. */
  lemma UriAlone(s: string)
    requires |s| == 11 && PrefixCi("javascript:", s)
    ensures SanitizeString(s) == ""
  {
    forall i | 0 <= i < |s|
      ensures LowerChar(s[i]) != '<'
    {
      assert LowerChar(s[i]) == "javascript:"[i];
    }
    NoLeadNoMatch(ScriptTag, s);
    NoLeadNoMatch(IframeTag, s);
    StripIdentityIff(ScriptTag, s);
    StripIdentityIff(IframeTag, s);
    assert s[11..] == [];
    assert Strip(JavascriptUri, s) == [];
  }

  lemma UriAloneExample()
    ensures SanitizeString("javascript:") == ""
  {
    UriAlone("javascript:");
  }
  // =============================================================== validators

  /** `validateTextLength`: false for anything but a non-empty string; otherwise the length bound. */
  function ValidateTextLength(text: Value, maxLength: int): (r: bool)
    ensures r <==> text.Str? && text.s != "" && Utf16Length(text.s) <= maxLength
  {
    if !Truthy(text) || !text.Str? then false else Utf16Length(text.s) <= maxLength
  }

  /** Two emoji are four code units: over a limit of 3, within a limit of 4. */
  lemma SupplementaryCountsTwice(s: string)
    requires s == "\U{1F600}\U{1F600}"
    ensures !ValidateTextLength(Str(s), 3) && ValidateTextLength(Str(s), 4)
  {
    assert Utf16Length(s) == CodeUnits(s[0]) + Utf16Length(s[1..]);
    assert Utf16Length(s[1..]) == CodeUnits(s[1]) + Utf16Length(s[1..][1..]);
    assert s[1..][1..] == [];
  }

  /** The default allowed list of `validateFileType`. */
  const DefaultFileTypes: seq<string> := [".txt", ".csv", ".pdf"]

  /** `s.split('.').pop()`. */
  function LastSegment(s: string): string
  {
    var parts := Split(s, '.');
    parts[|parts| - 1]
  }

  /** `k` is where the text after the last `.` of `s` begins (0 when `s` has no `.`). */
  predicate ExtensionStart(s: string, k: int)
  {
    0 <= k <= |s| && '.' !in s[k..] && (k == 0 || s[k - 1] == '.')
  }

  /** The last segment is the text after the last `.`, and only one position begins it. */
  lemma {:induction false} LastSegmentSpec(s: string)
    ensures ExtensionStart(s, |s| - |LastSegment(s)|) && LastSegment(s) == s[|s| - |LastSegment(s)|..]
    decreases |s|
  {
    match IndexOf(s, '.')
    case None =>
      assert Split(s, '.') == [s];
      assert s[0..] == s;
    case Some(k) =>
      var t := s[k + 1..];
      LastSegmentSpec(t);
      LastSegmentAfterDot(s, k);
      ExtensionShift(s, k, |t| - |LastSegment(t)|);
  }

  /** Past the first `.`, the last segment is that of the rest. */
  lemma LastSegmentAfterDot(s: string, k: nat)
    requires IndexOf(s, '.') == Some(k)
    ensures LastSegment(s) == LastSegment(s[k + 1..])
  {
    var rest := Split(s[k + 1..], '.');
    assert Split(s, '.') == [s[..k]] + rest;
    assert ([s[..k]] + rest)[|rest|] == rest[|rest| - 1];
  }

  /** An extension start in the text after a `.` is one in the whole text. */
  lemma ExtensionShift(s: string, k: nat, j: nat)
    requires k < |s| && s[k] == '.'
    requires ExtensionStart(s[k + 1..], j)
    ensures ExtensionStart(s, k + 1 + j) && s[k + 1 + j..] == s[k + 1..][j..]
  {
    var t := s[k + 1..];
    var e := k + 1 + j;
    assert s[e..] == t[j..];
    if j == 0 {
      assert s[e - 1] == s[k];
    } else {
      assert s[e - 1] == t[j - 1];
    }
  }

  lemma ExtensionStartUnique(s: string, j: int, k: int)
    requires ExtensionStart(s, j) && ExtensionStart(s, k)
    ensures j == k
  {
  }

  /**
   * `validateFileType`: false for a missing or empty name; otherwise `.`
   * followed by the lower-cased text after the name's last `.` (all of the
   * name when it has none) must be in `allowed`.
   */
  function ValidateFileType(filename: Option<string>, allowed: seq<string>): (r: bool)
    ensures r <==> (filename.Some? && filename.value != "" &&
                    forall k :: ExtensionStart(filename.value, k) ==> "." + Lower(filename.value[k..]) in allowed)
  {
    if filename.None? || filename.value == "" then false
    else
      var name := filename.value;
      LastSegmentSpec(name);
      var k0 := |name| - |LastSegment(name)|;
      forall k | ExtensionStart(name, k)
        ensures k == k0
      {
        ExtensionStartUnique(name, k, k0);
      }
      var extension := "." + Lower(LastSegment(name));
      extension in allowed
  }

  /** `A.TXT` passes: the extension is lower-cased before the lookup. */
  lemma UpperCaseExtensionPasses(name: string)
    requires name == "A.TXT"
    ensures ValidateFileType(Some(name), DefaultFileTypes)
  {
    assert ExtensionStart(name, 2);
    forall k | ExtensionStart(name, k)
      ensures "." + Lower(name[k..]) in DefaultFileTypes
    {
      ExtensionStartUnique(name, k, 2);
      assert name[k..] == "TXT";
      assert "." + Lower("TXT") == DefaultFileTypes[0];
    }
  }

  /** `file.` fails: the text after the last `.` is empty, so the extension is a bare `.`. */
  lemma TrailingDotFails(name: string)
    requires name == "file."
    ensures !ValidateFileType(Some(name), DefaultFileTypes)
  {
    assert ExtensionStart(name, 5);
    assert "." + Lower(name[5..]) == ".";
    assert "." !in DefaultFileTypes;
  }

  /** A name with no `.` is taken whole as its extension: `txt` passes as `.txt`. */
  lemma DotlessNamePasses(name: string)
    requires name == "txt"
    ensures ValidateFileType(Some(name), DefaultFileTypes)
  {
    forall k | ExtensionStart(name, k)
      ensures "." + Lower(name[k..]) in DefaultFileTypes
    {
      ExtensionStartUnique(name, k, 0);
      assert name[k..] == "txt";
      LowerOfLower("txt");
      assert "." + Lower("txt") == DefaultFileTypes[0];
    }
  }

  /** `validateFileSize`: inclusive upper bound. */
  function ValidateFileSize(fileSize: int, maxSizeBytes: int): (r: bool)
    ensures r <==> fileSize <= maxSizeBytes
    ensures fileSize == maxSizeBytes ==> r
  {
    fileSize <= maxSizeBytes
  }

  /** The validators' defaults are the shared limits. */
  lemma ValidatorDefaults()
    ensures forall i :: 0 <= i < |DefaultFileTypes| ==> DefaultFileTypes[i] in Constants.FileTypes
    ensures ValidateFileSize(Constants.MaxFileSize, 10 * 1024 * 1024)
    ensures !ValidateFileSize(Constants.MaxFileSize + 1, 10 * 1024 * 1024)
    ensures forall t :: ValidateTextLength(t, Constants.MaxTextLength) <==> ValidateTextLength(t, 100000)
  {
  }

  // =============================================================== rate limiter

  /** `timestamps.filter(t => now - t < windowMs)`, order kept. */
  function Recent(timestamps: seq<int>, now: int, windowMs: int): (r: seq<int>)
    ensures |r| <= |timestamps|
    ensures forall t :: t in r <==> t in timestamps && now - t < windowMs
  {
    if timestamps == [] then []
    else
      var rest := Recent(timestamps[1..], now, windowMs);
      assert forall t :: t in timestamps <==> t == timestamps[0] || t in timestamps[1..];
      if now - timestamps[0] < windowMs then [timestamps[0]] + rest else rest
  }

  /** The filter keeps every live timestamp, duplicates included, in order: it distributes over concatenation. */
  lemma {:induction false} RecentAppend(a: seq<int>, b: seq<int>, now: int, windowMs: int)
    ensures Recent(a + b, now, windowMs) == Recent(a, now, windowMs) + Recent(b, now, windowMs)
  {
    if a == [] {
      assert a + b == b;
    } else {
      assert (a + b)[0] == a[0];
      assert (a + b)[1..] == a[1..] + b;
      RecentAppend(a[1..], b, now, windowMs);
    }
  }

  lemma RecentSingle(t: int, now: int, windowMs: int)
    ensures Recent([t], now, windowMs) == (if now - t < windowMs then [t] else [])
  {
    assert [t][1..] == [];
  }

  /** The decision and the new window of one `checkRateLimit` call. */
  datatype RateDecision = RateDecision(allowed: bool, timestamps: seq<int>)

  function RateStep(timestamps: seq<int>, maxRequests: int, windowMs: int, now: int): (d: RateDecision)
  {
    var kept := Recent(timestamps, now, windowMs);
    if |kept| >= maxRequests then RateDecision(false, kept) else RateDecision(true, kept + [now])
  }

  /**
   * One call: expired entries go; then the call is refused, recording nothing,
   * when at least `maxRequests` remain, and is otherwise allowed and recorded.
   */
  lemma RateStepSpec(timestamps: seq<int>, maxRequests: int, windowMs: int, now: int)
    ensures var d := RateStep(timestamps, maxRequests, windowMs, now);
      var kept := Recent(timestamps, now, windowMs);
      && (d.allowed <==> |kept| < maxRequests)
      && (!d.allowed ==> d.timestamps == kept)
      && (d.allowed ==> d.timestamps == kept + [now] && |d.timestamps| <= maxRequests)
      && (forall t :: t in d.timestamps ==> t == now || (t in timestamps && now - t < windowMs))
  {
  }

  /** With a fixed limit the window never holds more than `maxRequests` entries. */
  lemma RateWindowBounded(timestamps: seq<int>, maxRequests: int, windowMs: int, now: int)
    requires |timestamps| <= maxRequests
    ensures |RateStep(timestamps, maxRequests, windowMs, now).timestamps| <= maxRequests
  {
  }

  /** A limit of zero (or less) refuses every call. */
  lemma ZeroLimitDenies(timestamps: seq<int>, maxRequests: int, windowMs: int, now: int)
    requires maxRequests <= 0
    ensures !RateStep(timestamps, maxRequests, windowMs, now).allowed
  {
  }

  /** The decisions of `n` calls all made at `now`. */
  function Burst(timestamps: seq<int>, maxRequests: int, windowMs: int, now: int, n: nat): (r: seq<bool>)
    ensures |r| == n
    decreases n
  {
    if n == 0 then []
    else
      var d := RateStep(timestamps, maxRequests, windowMs, now);
      [d.allowed] + Burst(d.timestamps, maxRequests, windowMs, now, n - 1)
  }

  /** Every entry of the window is still live at `now`. */
  predicate AllLive(timestamps: seq<int>, now: int, windowMs: int)
  {
    forall i :: 0 <= i < |timestamps| ==> now - timestamps[i] < windowMs
  }

  lemma {:induction false} RecentOfLive(timestamps: seq<int>, now: int, windowMs: int)
    requires AllLive(timestamps, now, windowMs)
    ensures Recent(timestamps, now, windowMs) == timestamps
  {
    if timestamps != [] {
      RecentOfLive(timestamps[1..], now, windowMs);
      assert timestamps == [timestamps[0]] + timestamps[1..];
    }
  }

  /**
   * A burst inside one window: with `m` live entries, call `k` (from 0) is
   * allowed exactly when `m + k < maxRequests`, so the first
   * `maxRequests - m` calls pass and every later one is refused.
   */
  lemma {:induction false} BurstDecisions(timestamps: seq<int>, maxRequests: int, windowMs: int, now: int, n: nat)
    requires windowMs > 0 && AllLive(timestamps, now, windowMs)
    ensures forall k :: 0 <= k < n ==> Burst(timestamps, maxRequests, windowMs, now, n)[k] == (|timestamps| + k < maxRequests)
    decreases n
  {
    if n > 0 {
      RecentOfLive(timestamps, now, windowMs);
      var d := RateStep(timestamps, maxRequests, windowMs, now);
      assert AllLive(d.timestamps, now, windowMs);
      BurstDecisions(d.timestamps, maxRequests, windowMs, now, n - 1);
      var b := Burst(timestamps, maxRequests, windowMs, now, n);
      assert b == [d.allowed] + Burst(d.timestamps, maxRequests, windowMs, now, n - 1);
      forall k | 0 <= k < n
        ensures b[k] == (|timestamps| + k < maxRequests)
      {
        if k > 0 {
          assert b[k] == Burst(d.timestamps, maxRequests, windowMs, now, n - 1)[k - 1];
          if |timestamps| < maxRequests {
            assert |d.timestamps| == |timestamps| + 1;
          } else {
            assert |d.timestamps| == |timestamps|;
          }
        }
      }
    }
  }

  /** Once every recorded call is at least `windowMs` old, the next call is allowed iff the limit is positive. */
  lemma WindowExpires(timestamps: seq<int>, maxRequests: int, windowMs: int, now: int)
    requires forall i :: 0 <= i < |timestamps| ==> now - timestamps[i] >= windowMs
    ensures Recent(timestamps, now, windowMs) == []
    ensures RateStep(timestamps, maxRequests, windowMs, now).allowed <==> maxRequests > 0
  {
  }

  /** The module-level `requestTimestamps` list and `checkRateLimit`, with the clock as a parameter. */
  class RateLimiter {
    var timestamps: seq<int>

    constructor()
      ensures timestamps == []
    {
      timestamps := [];
    }

    method CheckRateLimit(maxRequests: int, windowMs: int, now: int) returns (ok: bool)
      modifies this
      ensures RateDecision(ok, timestamps) == RateStep(old(timestamps), maxRequests, windowMs, now)
    {
      timestamps := Recent(timestamps, now, windowMs);
      if |timestamps| >= maxRequests {
        return false;
      }
      timestamps := timestamps + [now];
      return true;
    }
  }
}
