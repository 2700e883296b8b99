/** `clean_text` of the corpus builder: collapse whitespace, drop characters
    outside the allow-list, shorten URLs to their host, close the gap in
    `N %`, then split on `.` and keep the first occurrence of every segment
    (compared stripped and lower-cased), joined by `. `.
    Each `re.sub` is modelled as the left-to-right scan Python performs:
    try the pattern at the current position, otherwise keep the character
    and move on. */
module Cleaning {
  import opened Text

  /** The punctuation the allow-list names: `. , - % ( ) : /`. */
  predicate IsListedPunct(c: char) {
    c == '.' || c == ',' || c == '-' || c == '%' || c == '(' || c == ')' || c == ':' || c == '/'
  }

  /** Characters the second stage keeps: `[\w\s.,\-%():/]`. */
  predicate Kept(c: char) {
    IsWordChar(c) || IsSpace(c) || IsListedPunct(c)
  }

  /** Characters that can appear in the output of `clean_text`. */
  predicate Allowed(c: char) {
    IsWordChar(c) || c == ' ' || IsListedPunct(c)
  }

  ghost predicate AllAllowed(s: string) {
    forall i :: 0 <= i < |s| ==> Allowed(s[i])
  }

  lemma AllowedFrom(r: string, s: string)
    requires AllAllowed(s) && CharsFrom(r, s)
    ensures AllAllowed(r)
  {
  }

  /** The characters of `s` that are not whitespace, in order. */
  function RemoveSpaces(s: string): string {
    if s == [] then []
    else if IsSpace(s[0]) then RemoveSpaces(s[1..])
    else [s[0]] + RemoveSpaces(s[1..])
  }

  lemma {:induction false} RemoveSpacesConcat(a: string, b: string)
    ensures RemoveSpaces(a + b) == RemoveSpaces(a) + RemoveSpaces(b)
  {
    if a == [] {
      assert a + b == b;
    } else {
      assert (a + b)[0] == a[0] && (a + b)[1..] == a[1..] + b;
      RemoveSpacesConcat(a[1..], b);
    }
  }

  // ------------------------------------------------ stage 1: re.sub(r'\s+', ' ', text)

  /** Stage 1's output form: the only whitespace is ' ' and no two whitespace
      characters are adjacent. */
  ghost predicate Collapsed(s: string) {
    && (forall i :: 0 <= i < |s| && IsSpace(s[i]) ==> s[i] == ' ')
    && (forall i, j :: 0 <= i && j == i + 1 && j < |s| ==> !(IsSpace(s[i]) && IsSpace(s[j])))
  }

  /** Every maximal run of whitespace becomes one space. */
  function CollapseWhitespace(s: string): (r: string)
    ensures Collapsed(r)
    ensures s != [] ==> r != [] && (IsSpace(r[0]) <==> IsSpace(s[0]))
    decreases |s|
  {
    if s == [] then []
    else if IsSpace(s[0]) then [' '] + CollapseWhitespace(TrimLeft(s[1..]))
    else [s[0]] + CollapseWhitespace(s[1..])
  }

  lemma CollapsedTail(s: string)
    requires s != [] && Collapsed(s)
    ensures Collapsed(s[1..])
  {
    var t := s[1..];
    forall i, j | 0 <= i && j == i + 1 && j < |t| ensures !(IsSpace(t[i]) && IsSpace(t[j])) {
      assert t[i] == s[i + 1] && t[j] == s[j + 1];
    }
  }

  /** Text already in stage 1's output form is left unchanged by it. */
  lemma {:induction false} CollapseCollapsed(s: string)
    requires Collapsed(s)
    ensures CollapseWhitespace(s) == s
    decreases |s|
  {
    if s != [] {
      CollapsedTail(s);
      CollapseCollapsed(s[1..]);
      CollapseCollapsedStep(s);
    }
  }

  lemma CollapseCollapsedStep(s: string)
    requires s != [] && Collapsed(s) && CollapseWhitespace(s[1..]) == s[1..]
    ensures CollapseWhitespace(s) == s
  {
    if IsSpace(s[0]) {
      assert TrimLeft(s[1..]) == s[1..] by {
        if |s| > 1 {
          assert !(IsSpace(s[0]) && IsSpace(s[1]));
        }
      }
      assert s == [' '] + s[1..];
    } else {
      assert s == [s[0]] + s[1..];
    }
  }

  /** Stage 1 is idempotent. */
  lemma CollapseIdempotent(s: string)
    ensures CollapseWhitespace(CollapseWhitespace(s)) == CollapseWhitespace(s)
  {
    CollapseCollapsed(CollapseWhitespace(s));
  }

  lemma {:induction false} RemoveSpacesTrimLeft(s: string)
    ensures RemoveSpaces(TrimLeft(s)) == RemoveSpaces(s)
  {
    if s != [] && IsSpace(s[0]) {
      RemoveSpacesTrimLeft(s[1..]);
    }
  }

  /** Collapsing whitespace keeps every other character, in order. */
  lemma {:induction false} CollapseKeepsText(s: string)
    ensures RemoveSpaces(CollapseWhitespace(s)) == RemoveSpaces(s)
    decreases |s|
  {
    if s != [] {
      if IsSpace(s[0]) {
        var t := TrimLeft(s[1..]);
        CollapseKeepsText(t);
        RemoveSpacesTrimLeft(s[1..]);
        assert ([' '] + CollapseWhitespace(t))[1..] == CollapseWhitespace(t);
      } else {
        CollapseKeepsText(s[1..]);
        assert ([s[0]] + CollapseWhitespace(s[1..]))[1..] == CollapseWhitespace(s[1..]);
      }
    }
  }

  // ------------------------------------------------ stage 2: drop characters outside the allow-list

  function DropDisallowed(s: string): (r: string)
    ensures forall i :: 0 <= i < |r| ==> Kept(r[i])
  {
    if s == [] then []
    else if Kept(s[0]) then [s[0]] + DropDisallowed(s[1..])
    else DropDisallowed(s[1..])
  }

  // ------------------------------------------------ stage 3: re.sub(r'https?://[^\s]+', host, text)

  /** The pattern `https?://[^\s]+` matches at the start of `s`. */
  predicate UrlStart(s: string) {
    || (|s| > 8 && s[..8] == "https://" && !IsSpace(s[8]))
    || (|s| > 7 && s[..7] == "http://" && !IsSpace(s[7]))
  }

  /** Length of the `https://` or `http://` the pattern matched; the optional
      `s` is tried first, as the greedy `?` does. */
  function SchemeLen(token: string): nat {
    if |token| > 8 && token[..8] == "https://" && !IsSpace(token[8]) then 8 else 7
  }

  lemma SchemeFacts(token: string)
    requires UrlStart(token)
    ensures SchemeLen(token) < |token| && !IsSpace(token[SchemeLen(token)])
    ensures NoSpace(token[..SchemeLen(token)])
    ensures token[..SchemeLen(token)] == token[..SchemeLen(token) - 2] + "//"
    ensures '/' !in token[..SchemeLen(token) - 2]
  {
    if SchemeLen(token) == 8 {
      assert token[..8] == "https://";
      assert token[..6] == "https:";
    } else {
      assert token[..7] == "http://";
      assert token[..5] == "http:";
    }
  }

  lemma {:induction false} SplitUrl(token: string)
    requires UrlStart(token)
    ensures SchemeLen(token) < |token| && |Split(token, '/')| >= 3
    ensures Split(token, '/')[2] == Split(token[SchemeLen(token)..], '/')[0]
  {
    SchemeFacts(token);
    var n := SchemeLen(token);
    var scheme, rest := token[..n - 2], token[n..];
    assert token == scheme + ("//" + rest);
    SplitWithPrefix(scheme, "//" + rest, '/');
    assert ("//" + rest)[0] == '/' && ("//" + rest)[1..] == "/" + rest;
    assert ("/" + rest)[0] == '/' && ("/" + rest)[1..] == rest;
    var u := Split("//" + rest, '/');
    assert u == [[]] + ([[]] + Split(rest, '/'));
  }

  /** `h` is the longest prefix of `rest` without a `/`. */
  ghost predicate HostOf(rest: string, h: string) {
    && |h| <= |rest| && rest[..|h|] == h && '/' !in h
    && (|h| == |rest| || rest[|h|] == '/')
  }

  /** `m.group(0).split('/')[2]`: the text between `//` and the next `/`. The
      source's `else m.group(0)` alternative never applies, because every
      match contains `//`. */
  function Host(token: string): (r: string)
    requires UrlStart(token)
    ensures SchemeLen(token) < |token|
    ensures HostOf(token[SchemeLen(token)..], r)
  {
    SplitUrl(token);
    SplitHead(token[SchemeLen(token)..], '/');
    Split(token, '/')[2]
  }

  lemma HostChars(token: string)
    requires UrlStart(token)
    ensures CharsFrom(Host(token), token)
  {
    var n, r := SchemeLen(token), Host(token);
    forall i | 0 <= i < |r| ensures r[i] in token {
      assert r[i] == token[n..][i] == token[n + i];
    }
  }

  /** The token a match consumes (up to the next whitespace) is itself a
      match with the same scheme. */
  lemma UrlTokenLen(s: string)
    requires UrlStart(s)
    ensures SchemeLen(s) < TokenLen(s) && UrlStart(s[..TokenLen(s)])
    ensures SchemeLen(s[..TokenLen(s)]) == SchemeLen(s)
  {
    SchemeFacts(s);
    var k, n := TokenLen(s), SchemeLen(s);
    if k == n {
      assert false;
    }
    var t := s[..k];
    assert t[..n] == s[..n] && t[n] == s[n];
    if |s| > 8 && s[..8] == "https://" && IsSpace(s[8]) {
      assert k <= 8;
    }
    if |t| > 8 {
      assert t[..8] == s[..8] && t[8] == s[8];
    }
  }

  function ShortenUrls(s: string): string
    decreases |s|
  {
    if s == [] then []
    else if UrlStart(s) then
      var k := TokenLen(s);
      UrlTokenLen(s);
      Host(s[..k]) + ShortenUrls(s[k..])
    else [s[0]] + ShortenUrls(s[1..])
  }

  /** A URL token followed by whitespace (or the end) is replaced by its host
      and the scan resumes right after it. */
  lemma ShortenUrlToken(t: string, u: string)
    requires UrlStart(t) && NoSpace(t)
    requires u == [] || IsSpace(u[0])
    ensures ShortenUrls(t + u) == Host(t) + ShortenUrls(u)
  {
    var s := t + u;
    TokenLenOfWord(t, u);
    assert s[..SchemeLen(t) + 1] == t[..SchemeLen(t) + 1];
    assert UrlStart(s);
    assert s[..|t|] == t && s[|t|..] == u;
  }

  /** Text in which the pattern matches nowhere is left unchanged. */
  lemma {:induction false} ShortenWithoutUrls(s: string)
    requires forall i :: 0 <= i <= |s| ==> !UrlStart(s[i..])
    ensures ShortenUrls(s) == s
  {
    if s != [] {
      assert !UrlStart(s[0..]);
      forall i | 0 <= i <= |s| - 1 ensures !UrlStart(s[1..][i..]) {
        assert s[1..][i..] == s[i + 1..];
      }
      ShortenWithoutUrls(s[1..]);
    }
  }

  // ------------------------------------------------ stage 4: re.sub(r'(\d+)\s*%', r'\1%', text)

  /** Length of the leading run of digits. */
  function DigitRun(s: string): (n: nat)
    ensures n <= |s|
  {
    if s != [] && IsDigit(s[0]) then 1 + DigitRun(s[1..]) else 0
  }

  lemma {:induction false} DigitRunFacts(s: string)
    ensures forall i :: 0 <= i < DigitRun(s) ==> IsDigit(s[i])
    ensures DigitRun(s) == |s| || !IsDigit(s[DigitRun(s)])
  {
    if s != [] && IsDigit(s[0]) {
      DigitRunFacts(s[1..]);
      forall i | 0 < i < DigitRun(s) ensures IsDigit(s[i]) {
        assert s[i] == s[1..][i - 1];
      }
    }
  }

  /** The leading run of digits, as a string. */
  lemma DigitsOfRun(s: string)
    ensures forall i :: 0 <= i < |s[..DigitRun(s)]| ==> IsDigit(s[..DigitRun(s)][i])
  {
    DigitRunFacts(s);
  }

  /** `s` starts with `\s*%`. */
  predicate SpacesThenPercent(t: string) {
    t != [] && (t[0] == '%' || (IsSpace(t[0]) && SpacesThenPercent(t[1..])))
  }

  /** Length of the leading run of whitespace. */
  function SpaceRun(t: string): (n: nat)
    ensures n <= |t|
  {
    if t != [] && IsSpace(t[0]) then 1 + SpaceRun(t[1..]) else 0
  }

  lemma {:induction false} SpaceRunFacts(t: string)
    ensures forall i :: 0 <= i < SpaceRun(t) ==> IsSpace(t[i])
    ensures SpacesThenPercent(t) <==> SpaceRun(t) < |t| && t[SpaceRun(t)] == '%'
  {
    if t != [] && IsSpace(t[0]) {
      SpaceRunFacts(t[1..]);
      forall i | 0 < i < SpaceRun(t) ensures IsSpace(t[i]) {
        assert t[i] == t[1..][i - 1];
      }
      var n := SpaceRun(t[1..]);
      if n < |t| - 1 {
        assert t[n + 1] == t[1..][n];
      }
    }
  }

  /** Where the `%` of a match at the start of `s` is. */
  function PercentAt(s: string): nat
    requires DigitRun(s) > 0 && SpacesThenPercent(s[DigitRun(s)..])
  {
    DigitRun(s) + SpaceRun(s[DigitRun(s)..])
  }

  /** The `%` of a match at the start of `s`. */
  lemma MatchPercent(s: string)
    requires DigitRun(s) > 0 && SpacesThenPercent(s[DigitRun(s)..])
    ensures PercentAt(s) < |s| && s[PercentAt(s)] == '%'
  {
    var t := s[DigitRun(s)..];
    SpaceRunFacts(t);
    assert s[PercentAt(s)] == t[SpaceRun(t)];
  }

  /** A match at the start of `s`: digits, then whitespace, then `%`. */
  lemma MatchShape(s: string)
    requires DigitRun(s) > 0 && SpacesThenPercent(s[DigitRun(s)..])
    ensures PercentAt(s) < |s| && s[PercentAt(s)] == '%'
    ensures forall i :: 0 <= i < DigitRun(s) ==> IsDigit(s[i])
    ensures forall i :: DigitRun(s) <= i < PercentAt(s) ==> IsSpace(s[i])
  {
    var d := DigitRun(s);
    var t := s[d..];
    MatchPercent(s);
    DigitRunFacts(s);
    SpaceRunFacts(t);
    forall i | d <= i < PercentAt(s) ensures IsSpace(s[i]) {
      assert s[i] == t[i - d];
    }
  }

  /** A match contains a `%`. */
  lemma MatchHasPercent(s: string)
    ensures DigitRun(s) > 0 && SpacesThenPercent(s[DigitRun(s)..]) ==> '%' in s
  {
    if DigitRun(s) > 0 && SpacesThenPercent(s[DigitRun(s)..]) {
      MatchPercent(s);
    }
  }

  /** The fourth stage: every `<digits><whitespace>%` loses its whitespace. */
  function NormalizePercent(s: string): (r: string)
    ensures s != [] ==> r != [] && r[0] == s[0]
    decreases |s|
  {
    if s == [] then []
    else
      var d := DigitRun(s);
      if d > 0 && SpacesThenPercent(s[d..]) then
        var e := PercentAt(s);
        MatchPercent(s);
        s[..d] + "%" + NormalizePercent(s[e + 1..])
      else [s[0]] + NormalizePercent(s[1..])
  }

  /** `t` is whitespace followed, after any further whitespace, by `%`. */
  predicate GapThenPercent(t: string) {
    t != [] && IsSpace(t[0]) && SpacesThenPercent(t)
  }

  /** No digit in `r` is followed by whitespace and then `%`. */
  predicate NoPercentGap(r: string) {
    r == [] || (!(IsDigit(r[0]) && GapThenPercent(r[1..])) && NoPercentGap(r[1..]))
  }

  lemma {:induction false} NoPercentGapDigits(d: string, rest: string)
    requires forall i :: 0 <= i < |d| ==> IsDigit(d[i])
    requires NoPercentGap(rest)
    ensures NoPercentGap(d + "%" + rest)
  {
    if d == [] {
      assert (d + "%" + rest)[1..] == rest;
    } else {
      NoPercentGapDigits(d[1..], rest);
      assert (d + "%" + rest)[1..] == d[1..] + "%" + rest;
    }
  }

  lemma {:induction false} NormalizeKeepsNoPercent(t: string)
    requires !SpacesThenPercent(t)
    ensures !SpacesThenPercent(NormalizePercent(t))
    decreases |t|
  {
    if t != [] && IsSpace(t[0]) {
      NormalizeKeepsNoPercent(t[1..]);
      assert NormalizePercent(t)[1..] == NormalizePercent(t[1..]);
    }
  }

  /** After the fourth stage no digit is separated from a following `%` by
      whitespace. */
  lemma {:induction false} NormalizeClosesGaps(s: string)
    ensures NoPercentGap(NormalizePercent(s))
    decreases |s|
  {
    if s != [] {
      var d := DigitRun(s);
      if d > 0 && SpacesThenPercent(s[d..]) {
        MatchPercent(s);
        NormalizeClosesGaps(s[PercentAt(s) + 1..]);
        NormalizeClosesGapsMatch(s);
      } else {
        NormalizeClosesGaps(s[1..]);
        NormalizeClosesGapsStep(s);
      }
    }
  }

  lemma NormalizeClosesGapsMatch(s: string)
    requires DigitRun(s) > 0 && SpacesThenPercent(s[DigitRun(s)..]) && PercentAt(s) < |s|
    requires NoPercentGap(NormalizePercent(s[PercentAt(s) + 1..]))
    ensures NoPercentGap(NormalizePercent(s))
  {
    DigitsOfRun(s);
    NoPercentGapDigits(s[..DigitRun(s)], NormalizePercent(s[PercentAt(s) + 1..]));
    NormalizeMatch(s);
  }


  /** Stage 4 on a text that starts with a match. */
  lemma NormalizeMatch(s: string)
    requires DigitRun(s) > 0 && SpacesThenPercent(s[DigitRun(s)..])
    ensures PercentAt(s) < |s|
    ensures NormalizePercent(s) == s[..DigitRun(s)] + "%" + NormalizePercent(s[PercentAt(s) + 1..])
  {
    MatchPercent(s);
  }

  /** Stage 4 emits an unmatched first character and continues: that keeps
      the output free of gaps. */
  lemma NormalizeClosesGapsStep(s: string)
    requires s != [] && !(DigitRun(s) > 0 && SpacesThenPercent(s[DigitRun(s)..]))
    requires NoPercentGap(NormalizePercent(s[1..]))
    ensures NoPercentGap(NormalizePercent(s))
  {
    var d := DigitRun(s);
    var rest := NormalizePercent(s[1..]);
    assert NormalizePercent(s) == [s[0]] + rest;
    assert NormalizePercent(s)[1..] == rest;
    if IsDigit(s[0]) && |s| > 1 && d == 1 {
      assert s[1..] == s[d..];
      NormalizeKeepsNoPercent(s[1..]);
    }
  }

  lemma {:induction false} RemoveSpacesOfSpaces(w: string)
    requires forall i :: 0 <= i < |w| ==> IsSpace(w[i])
    ensures RemoveSpaces(w) == []
  {
    if w != [] {
      RemoveSpacesOfSpaces(w[1..]);
    }
  }

  lemma {:induction false} RemoveSpacesOfDigits(d: string)
    requires forall i :: 0 <= i < |d| ==> IsDigit(d[i])
    ensures RemoveSpaces(d) == d
  {
    if d != [] {
      RemoveSpacesOfDigits(d[1..]);
    }
  }

  lemma RemoveSpacesGap(d: string, w: string, t: string)
    requires RemoveSpaces(d) == d && RemoveSpaces(w) == []
    ensures RemoveSpaces(d + w + "%" + t) == d + "%" + RemoveSpaces(t)
  {
    RemoveSpacesPercent(t);
    RemoveSpacesConcat(w, "%" + t);
    RemoveSpacesConcat(d, w + ("%" + t));
    SeqAssoc(d, w, "%", t);
    SeqAssoc(d, [], "%", RemoveSpaces(t));
  }


  lemma RemoveSpacesPercent(t: string)
    ensures RemoveSpaces("%" + t) == "%" + RemoveSpaces(t)
  {
    assert ("%" + t)[0] == '%' && ("%" + t)[1..] == t;
  }

  lemma SeqAssoc(a: string, b: string, c: string, t: string)
    ensures a + b + c + t == a + (b + (c + t))
  {
  }

  lemma SliceAround(s: string, d: nat, e: nat)
    requires d <= e < |s|
    ensures s == s[..d] + s[d..e] + [s[e]] + s[e + 1..]
  {
    assert s[..e] == s[..d] + s[d..e];
    assert s == s[..e] + [s[e]] + s[e + 1..];
  }

  /** Removing whitespace from a match leaves its digits and its `%`. */
  lemma RemoveSpacesOfMatch(s: string)
    requires DigitRun(s) > 0 && SpacesThenPercent(s[DigitRun(s)..])
    ensures PercentAt(s) < |s|
    ensures RemoveSpaces(s) == s[..DigitRun(s)] + "%" + RemoveSpaces(s[PercentAt(s) + 1..])
  {
    MatchPercent(s);
    SliceAround(s, DigitRun(s), PercentAt(s));
    assert [s[PercentAt(s)]] == "%";
    RemoveSpacesOfRun(s);
    RemoveSpacesOfGap(s);
    RemoveSpacesGap(s[..DigitRun(s)], s[DigitRun(s)..PercentAt(s)], s[PercentAt(s) + 1..]);
  }

  lemma RemoveSpacesOfRun(s: string)
    ensures RemoveSpaces(s[..DigitRun(s)]) == s[..DigitRun(s)]
  {
    DigitsOfRun(s);
    RemoveSpacesOfDigits(s[..DigitRun(s)]);
  }

  lemma RemoveSpacesOfGap(s: string)
    requires DigitRun(s) > 0 && SpacesThenPercent(s[DigitRun(s)..])
    ensures PercentAt(s) < |s|
    ensures RemoveSpaces(s[DigitRun(s)..PercentAt(s)]) == []
  {
    MatchShape(s);
    var b := s[DigitRun(s)..PercentAt(s)];
    forall i | 0 <= i < |b| ensures IsSpace(b[i]) {
      assert b[i] == s[DigitRun(s) + i];
    }
    RemoveSpacesOfSpaces(b);
  }

  lemma RemoveSpacesOfReplacement(x: string, n: string)
    requires forall i :: 0 <= i < |x| ==> IsDigit(x[i])
    ensures RemoveSpaces(x + "%" + n) == x + "%" + RemoveSpaces(n)
  {
    RemoveSpacesOfDigits(x);
    RemoveSpacesGap(x, [], n);
    assert x + [] + "%" + n == x + "%" + n;
  }

  /** The fourth stage removes whitespace and nothing else. */
  lemma {:induction false} NormalizeKeepsText(s: string)
    ensures RemoveSpaces(NormalizePercent(s)) == RemoveSpaces(s)
    decreases |s|
  {
    if s != [] {
      var d := DigitRun(s);
      if d > 0 && SpacesThenPercent(s[d..]) {
        MatchPercent(s);
        NormalizeKeepsText(s[PercentAt(s) + 1..]);
        NormalizeKeepsTextMatch(s);
      } else {
        NormalizeKeepsText(s[1..]);
        assert ([s[0]] + NormalizePercent(s[1..]))[1..] == NormalizePercent(s[1..]);
      }
    }
  }

  lemma NormalizeKeepsTextMatch(s: string)
    requires DigitRun(s) > 0 && SpacesThenPercent(s[DigitRun(s)..]) && PercentAt(s) < |s|
    requires RemoveSpaces(NormalizePercent(s[PercentAt(s) + 1..])) == RemoveSpaces(s[PercentAt(s) + 1..])
    ensures RemoveSpaces(NormalizePercent(s)) == RemoveSpaces(s)
  {
    DigitsOfRun(s);
    RemoveSpacesOfReplacement(s[..DigitRun(s)], NormalizePercent(s[PercentAt(s) + 1..]));
    RemoveSpacesOfMatch(s);
    NormalizeMatch(s);
  }


  lemma {:induction false} DigitRunOf(d: string, t: string)
    requires forall i :: 0 <= i < |d| ==> IsDigit(d[i])
    requires t == [] || !IsDigit(t[0])
    ensures DigitRun(d + t) == |d|
  {
    if d != [] {
      assert (d + t)[1..] == d[1..] + t;
      DigitRunOf(d[1..], t);
    }
  }

  lemma {:induction false} SpacesBeforePercent(w: string, u: string)
    requires forall i :: 0 <= i < |w| ==> IsSpace(w[i])
    ensures SpacesThenPercent(w + "%" + u) && SpaceRun(w + "%" + u) == |w|
  {
    if w != [] {
      assert (w + "%" + u)[1..] == w[1..] + "%" + u;
      SpacesBeforePercent(w[1..], u);
    }
  }

  /** `<digits><whitespace>%` at the scan position becomes `<digits>%` and the
      scan resumes after the `%`. */
  lemma PercentGapClosed(d: string, w: string, u: string)
    requires d != [] && forall i :: 0 <= i < |d| ==> IsDigit(d[i])
    requires forall i :: 0 <= i < |w| ==> IsSpace(w[i])
    ensures NormalizePercent(d + w + "%" + u) == d + "%" + NormalizePercent(u)
  {
    var s := d + w + "%" + u;
    assert s == d + (w + "%" + u);
    DigitRunOf(d, w + "%" + u);
    SpacesBeforePercent(w, u);
    assert s[|d|..] == w + "%" + u;
    assert s[..|d|] == d;
    assert s[|d| + |w| + 1..] == u;
  }

  // ------------------------------------------------ stage 5: split on '.', first occurrences only

  function StripEach(pieces: seq<string>): (r: seq<string>)
    ensures |r| == |pieces|
    ensures forall k :: 0 <= k < |pieces| ==> r[k] == Strip(pieces[k])
  {
    seq(|pieces|, k requires 0 <= k < |pieces| => Strip(pieces[k]))
  }

  /** The lines the loop keeps out of the already stripped `lines`, given the
      keys (`line.strip().lower()`) already `seen`. */
  function Dedupe(lines: seq<string>, seen: set<string>): seq<string> {
    if lines == [] then []
    else
      var key := Lower(lines[0]);
      if key != [] && key !in seen then [lines[0]] + Dedupe(lines[1..], seen + {key})
      else Dedupe(lines[1..], seen)
  }

  /** Every line of `r` is non-empty and its key is not in `seen`. */
  ghost predicate NewKeys(r: seq<string>, seen: set<string>) {
    forall k :: 0 <= k < |r| ==> r[k] != [] && Lower(r[k]) !in seen
  }

  /** No two lines of `r` are equal ignoring case. */
  ghost predicate DistinctKeys(r: seq<string>) {
    forall k, l :: 0 <= k < l < |r| ==> Lower(r[k]) != Lower(r[l])
  }

  /** `r` is the subsequence of `lines` at the increasing positions `idx`, and
      no line before `idx[k]` has the key of `r[k]`. */
  ghost predicate FirstOccurrences(lines: seq<string>, r: seq<string>, idx: seq<nat>) {
    && |idx| == |r|
    && Picks(lines, r, idx)
    && Increasing(idx)
    && NoEarlier(lines, r, idx)
  }

  ghost predicate Picks(lines: seq<string>, r: seq<string>, idx: seq<nat>)
    requires |idx| == |r|
  {
    forall k :: 0 <= k < |r| ==> idx[k] < |lines| && r[k] == lines[idx[k]]
  }

  ghost predicate Increasing(idx: seq<nat>) {
    forall k, l :: 0 <= k < l < |idx| ==> idx[k] < idx[l]
  }

  ghost predicate NoEarlier(lines: seq<string>, r: seq<string>, idx: seq<nat>)
    requires |idx| == |r|
  {
    forall k, j :: 0 <= k < |r| && 0 <= j < idx[k] && j < |lines| ==> Lower(lines[j]) != Lower(r[k])
  }

  /** Every line of `lines` with a non-empty key has its key in `seen` or
      shares it with a line of `r`. */
  ghost predicate Covers(lines: seq<string>, seen: set<string>, r: seq<string>) {
    forall j :: 0 <= j < |lines| && Lower(lines[j]) != [] ==>
      Lower(lines[j]) in seen || exists k :: 0 <= k < |r| && Lower(r[k]) == Lower(lines[j])
  }

  /** Kept lines are non-empty, new, and distinct from each other ignoring
      case. */
  lemma {:induction false} DedupeDistinct(lines: seq<string>, seen: set<string>)
    ensures NewKeys(Dedupe(lines, seen), seen)
    ensures DistinctKeys(Dedupe(lines, seen))
  {
    if lines != [] {
      var key := Lower(lines[0]);
      if key != [] && key !in seen {
        var next := seen + {key};
        var rest := Dedupe(lines[1..], next);
        DedupeDistinct(lines[1..], next);
        var r := [lines[0]] + rest;
        assert Dedupe(lines, seen) == r;
        forall k | 0 <= k < |r|
          ensures r[k] != [] && Lower(r[k]) !in seen
        {
          if k > 0 {
            assert r[k] == rest[k - 1];
          }
        }
        forall k, l | 0 <= k < l < |r|
          ensures Lower(r[k]) != Lower(r[l])
        {
          assert r[l] == rest[l - 1];
          if k > 0 {
            assert r[k] == rest[k - 1];
          }
        }
      } else {
        DedupeDistinct(lines[1..], seen);
      }
    }
  }

  /** Every position of `sub` moved one place to the right. */
  function Shift(sub: seq<nat>): (r: seq<nat>)
    ensures |r| == |sub|
    ensures forall i :: 0 <= i < |sub| ==> r[i] == sub[i] + 1
  {
    seq(|sub|, i requires 0 <= i < |sub| => sub[i] + 1)
  }

  lemma FirstOccurrencesSkip(lines: seq<string>, r: seq<string>, sub: seq<nat>)
    requires lines != [] && FirstOccurrences(lines[1..], r, sub)
    requires forall k :: 0 <= k < |r| ==> Lower(r[k]) != Lower(lines[0])
    ensures FirstOccurrences(lines, r, Shift(sub))
  {
    var idx := Shift(sub);
    forall k, j | 0 <= k < |r| && 0 <= j < idx[k] && j < |lines| ensures Lower(lines[j]) != Lower(r[k]) {
      if j > 0 {
        assert lines[j] == lines[1..][j - 1];
      }
    }
  }

  lemma PicksCons(lines: seq<string>, rest: seq<string>, sub: seq<nat>)
    requires lines != [] && |sub| == |rest| && Picks(lines[1..], rest, sub)
    ensures Picks(lines, [lines[0]] + rest, [0] + Shift(sub))
  {
    var idx, r := [0] + Shift(sub), [lines[0]] + rest;
    forall k | 0 <= k < |r| ensures idx[k] < |lines| && r[k] == lines[idx[k]] {
      if k > 0 {
        assert r[k] == rest[k - 1] && idx[k] == sub[k - 1] + 1;
      }
    }
  }

  lemma IncreasingCons(sub: seq<nat>)
    requires Increasing(sub)
    ensures Increasing([0] + Shift(sub))
  {
    var idx := [0] + Shift(sub);
    forall k, l | 0 <= k < l < |idx| ensures idx[k] < idx[l] {
      assert idx[l] == sub[l - 1] + 1;
      if k > 0 {
        assert idx[k] == sub[k - 1] + 1;
      }
    }
  }

  lemma NoEarlierCons(lines: seq<string>, rest: seq<string>, sub: seq<nat>)
    requires lines != [] && |sub| == |rest| && NoEarlier(lines[1..], rest, sub)
    requires forall k :: 0 <= k < |rest| ==> Lower(rest[k]) != Lower(lines[0])
    ensures NoEarlier(lines, [lines[0]] + rest, [0] + Shift(sub))
  {
    var idx, r := [0] + Shift(sub), [lines[0]] + rest;
    forall k, j | 0 <= k < |r| && 0 <= j < idx[k] && j < |lines| ensures Lower(lines[j]) != Lower(r[k]) {
      assert r[k] == rest[k - 1] && idx[k] == sub[k - 1] + 1;
      if j > 0 {
        assert lines[j] == lines[1..][j - 1];
      }
    }
  }

  lemma FirstOccurrencesCons(lines: seq<string>, rest: seq<string>, sub: seq<nat>)
    requires lines != [] && FirstOccurrences(lines[1..], rest, sub)
    requires forall k :: 0 <= k < |rest| ==> Lower(rest[k]) != Lower(lines[0])
    ensures FirstOccurrences(lines, [lines[0]] + rest, [0] + Shift(sub))
  {
    PicksCons(lines, rest, sub);
    IncreasingCons(sub);
    NoEarlierCons(lines, rest, sub);
  }

  /** Every kept line is the first input line with its key, and kept lines
      appear in input order; `idx` gives their positions. */
  lemma {:induction false} DedupeFirstOccurrences(lines: seq<string>, seen: set<string>)
    returns (idx: seq<nat>)
    ensures FirstOccurrences(lines, Dedupe(lines, seen), idx)
  {
    if lines == [] {
      idx := [];
    } else {
      var key := Lower(lines[0]);
      var next := if key != [] && key !in seen then seen + {key} else seen;
      var sub := DedupeFirstOccurrences(lines[1..], next);
      var rest := Dedupe(lines[1..], next);
      DedupeDistinct(lines[1..], next);
      forall k | 0 <= k < |rest| ensures Lower(rest[k]) != key {
        assert rest[k] != [] && Lower(rest[k]) !in next;
      }
      if key != [] && key !in seen {
        FirstOccurrencesCons(lines, rest, sub);
        idx := [0] + Shift(sub);
      } else {
        FirstOccurrencesSkip(lines, rest, sub);
        idx := Shift(sub);
      }
    }
  }

  /** No line with a non-empty key is lost: its key was seen before or is the
      key of a kept line. */
  lemma {:induction false} DedupeComplete(lines: seq<string>, seen: set<string>)
    ensures Covers(lines, seen, Dedupe(lines, seen))
  {
    if lines != [] {
      var key := Lower(lines[0]);
      var r := Dedupe(lines, seen);
      var next := if key != [] && key !in seen then seen + {key} else seen;
      var rest := Dedupe(lines[1..], next);
      DedupeComplete(lines[1..], next);
      forall j | 0 <= j < |lines| && Lower(lines[j]) != []
        ensures Lower(lines[j]) in seen || exists k :: 0 <= k < |r| && Lower(r[k]) == Lower(lines[j])
      {
        if key != [] && key !in seen {
          assert r == [lines[0]] + rest;
          if j == 0 || Lower(lines[j]) == key {
            assert Lower(r[0]) == key;
          } else {
            assert lines[j] == lines[1..][j - 1];
            if Lower(lines[j]) !in seen {
              var k :| 0 <= k < |rest| && Lower(rest[k]) == Lower(lines[j]);
              assert r[k + 1] == rest[k];
            }
          }
        } else {
          assert r == rest;
          if j > 0 {
            assert lines[j] == lines[1..][j - 1];
          }
        }
      }
    }
  }

  /** Stage 5: `'. '.join(unique_lines)`. */
  function DedupeSegments(s: string): string {
    Join(Dedupe(StripEach(Split(s, '.')), {}), ". ")
  }

  // ------------------------------------------------ the whole function

  /** The text the fifth stage splits: stages 1 to 4 applied in order. */
  function Normalize(text: string): string {
    NormalizePercent(ShortenUrls(DropDisallowed(CollapseWhitespace(text))))
  }

  /** `clean_text(text)`; an empty input gives the empty string. */
  function Clean(text: string): (r: string)
    ensures text == [] ==> r == []
  {
    if text == [] then [] else DedupeSegments(Normalize(text))
  }

  /** The loop of the fifth stage: grow `seen` and `unique_lines` over the
      `.`-separated lines. */
  method DedupeLines(lines: seq<string>) returns (uniqueLines: seq<string>)
    ensures uniqueLines == Dedupe(StripEach(lines), {})
  {
    ghost var stripped := StripEach(lines);
    var seen: set<string> := {};
    uniqueLines := [];
    for i := 0 to |lines|
      invariant uniqueLines + Dedupe(stripped[i..], seen) == Dedupe(stripped, {})
    {
      var line := Strip(lines[i]);
      var normalized := Lower(line);
      assert stripped[i..][0] == line && stripped[i..][1..] == stripped[i + 1..];
      if normalized != [] && normalized !in seen {
        seen := seen + {normalized};
        uniqueLines := uniqueLines + [line];
      }
    }
  }

  /** `clean_text` as the source writes it: the regex stages, then the loop. */
  method CleanText(text: string) returns (r: string)
    ensures r == Clean(text)
    ensures text == [] ==> r == []
  {
    if text == [] {
      return "";
    }
    var s := Normalize(text);
    var uniqueLines := DedupeLines(Split(s, '.'));
    r := Join(uniqueLines, ". ");
  }

  // ------------------------------------------------ properties of the output

  lemma {:induction false} AllowedJoin(parts: seq<string>, sep: string)
    requires AllAllowed(sep)
    requires forall k :: 0 <= k < |parts| ==> AllAllowed(parts[k])
    ensures AllAllowed(Join(parts, sep))
  {
    if |parts| > 1 {
      AllowedJoin(parts[1..], sep);
    }
  }

  lemma NormalizeAlphabet(text: string)
    ensures AllAllowed(Normalize(text))
  {
    var c := CollapseWhitespace(text);
    var d := DropDisallowed(c);
    DropChars(c);
    forall i | 0 <= i < |d| ensures Allowed(d[i]) {
      assert Kept(d[i]);
      assert d[i] in c;
    }
    var u := ShortenUrls(d);
    ShortenChars(d);
    AllowedFrom(u, d);
    NormalizeChars(u);
    AllowedFrom(NormalizePercent(u), u);
  }

  lemma DedupeSegmentsAlphabet(s: string)
    requires AllAllowed(s)
    ensures AllAllowed(DedupeSegments(s))
  {
    var segments := Split(s, '.');
    var stripped := StripEach(segments);
    var kept := Dedupe(stripped, {});
    var idx := DedupeFirstOccurrences(stripped, {});
    SplitChars(s, '.');
    forall k | 0 <= k < |kept| ensures AllAllowed(kept[k]) {
      var seg := segments[idx[k]];
      AllowedFrom(seg, s);
      StripChars(seg);
      AllowedFrom(kept[k], seg);
    }
    AllowedJoin(kept, ". ");
  }

  /** Every output character is a word character, a space, or one of
      `. , - % ( ) : /`; in particular no tab or newline survives. */
  lemma CleanAlphabet(text: string)
    ensures AllAllowed(Clean(text))
  {
    if text != [] {
      NormalizeAlphabet(text);
      DedupeSegmentsAlphabet(Normalize(text));
    }
  }

  function SpacePrefixed(parts: seq<string>): (r: seq<string>)
    ensures |r| == |parts|
    ensures forall k :: 0 <= k < |parts| ==> r[k] == " " + parts[k]
  {
    seq(|parts|, k requires 0 <= k < |parts| => " " + parts[k])
  }

  /** Splitting `". " + tail` on `.` gives an empty piece, then the pieces of
      `tail` with a space before the first. */
  lemma SplitDotSpace(tail: string)
    ensures Split(". " + tail, '.') == [[], " " + Split(tail, '.')[0]] + Split(tail, '.')[1..]
  {
    assert (". " + tail)[1..] == " " + tail;
    SplitWithPrefix(" ", tail, '.');
  }

  lemma {:induction false} SplitDotSpaceJoin(parts: seq<string>)
    requires |parts| >= 1
    requires forall k :: 0 <= k < |parts| ==> '.' !in parts[k]
    ensures Split(Join(parts, ". "), '.') == [parts[0]] + SpacePrefixed(parts[1..])
  {
    if |parts| == 1 {
      SplitWithPrefix(parts[0], [], '.');
      assert parts[0] + [] == parts[0];
    } else {
      var tail := Join(parts[1..], ". ");
      var st := Split(tail, '.');
      assert st == [parts[1]] + SpacePrefixed(parts[2..]) by {
        SplitDotSpaceJoin(parts[1..]);
      }
      var u := Split(". " + tail, '.');
      assert u == [[], " " + st[0]] + st[1..] by {
        SplitDotSpace(tail);
      }
      assert Split(Join(parts, ". "), '.') == [parts[0] + u[0]] + u[1..] by {
        assert Join(parts, ". ") == parts[0] + (". " + tail);
        SplitWithPrefix(parts[0], ". " + tail, '.');
      }
      assert SpacePrefixed(parts[1..]) == [" " + parts[1]] + SpacePrefixed(parts[2..]);
      SplitPiecesCons(parts[0], parts[1], u, st, SpacePrefixed(parts[2..]));
    }
  }

  lemma SplitPiecesCons(p: string, q: string, u: seq<string>, st: seq<string>, sp: seq<string>)
    requires st == [q] + sp && u == [[], " " + st[0]] + st[1..]
    ensures [p + u[0]] + u[1..] == [p] + ([" " + q] + sp)
  {
    assert p + u[0] == p;
    assert u[1..] == [" " + q] + sp;
  }


  /** The kept lines contain no `.` and are already stripped. */
  lemma DedupeSegmentsKept(s: string)
    ensures forall k :: 0 <= k < |Dedupe(StripEach(Split(s, '.')), {})| ==>
      var line := Dedupe(StripEach(Split(s, '.')), {})[k];
      '.' !in line && Strip(line) == line
  {
    var segments := Split(s, '.');
    var stripped := StripEach(segments);
    var kept := Dedupe(stripped, {});
    var idx := DedupeFirstOccurrences(stripped, {});
    forall k | 0 <= k < |kept| ensures '.' !in kept[k] && Strip(kept[k]) == kept[k] {
      var seg := segments[idx[k]];
      assert '.' !in seg;
      StripChars(seg);
      StripOfStripped(kept[k]);
    }
  }

  /** Splitting `'. '.join(parts)` on `.` and stripping the pieces gives the
      parts back, when they are stripped and free of `.`. */
  lemma StripSplitJoin(parts: seq<string>)
    requires |parts| >= 1
    requires forall k :: 0 <= k < |parts| ==> '.' !in parts[k] && Strip(parts[k]) == parts[k]
    ensures StripEach(Split(Join(parts, ". "), '.')) == parts
  {
    SplitDotSpaceJoin(parts);
    var pieces := StripEach(Split(Join(parts, ". "), '.'));
    forall k | 0 <= k < |parts| ensures pieces[k] == parts[k] {
      if k > 0 {
        StripOfLeadingSpace(parts[k]);
      }
    }
  }

  lemma DedupeSegmentsPieces(s: string)
    requires DedupeSegments(s) != []
    ensures StripEach(Split(DedupeSegments(s), '.')) == Dedupe(StripEach(Split(s, '.')), {})
  {
    var kept := Dedupe(StripEach(Split(s, '.')), {});
    assert kept != [];
    DedupeSegmentsKept(s);
    StripSplitJoin(kept);
  }

  /** For a non-empty result, stripping its `.`-separated pieces gives back
      exactly the kept segments: non-empty, already stripped, distinct
      ignoring case, each the stripped first occurrence of its key in the
      normalised text. */
  lemma CleanSegments(text: string)
    requires Clean(text) != []
    ensures StripEach(Split(Clean(text), '.')) == Dedupe(StripEach(Split(Normalize(text), '.')), {})
    ensures NewKeys(StripEach(Split(Clean(text), '.')), {})
    ensures DistinctKeys(StripEach(Split(Clean(text), '.')))
    ensures forall k :: 0 <= k < |Split(Clean(text), '.')| ==>
      Strip(StripEach(Split(Clean(text), '.'))[k]) == StripEach(Split(Clean(text), '.'))[k]
  {
    var s := Normalize(text);
    DedupeSegmentsPieces(s);
    DedupeSegmentsKept(s);
    DedupeDistinct(StripEach(Split(s, '.')), {});
  }

  // ------------------------------------------------ stages 2 to 4 only take characters from their input

  lemma {:induction false} DropChars(s: string)
    ensures CharsFrom(DropDisallowed(s), s)
  {
    if s != [] {
      DropChars(s[1..]);
      CharsFromSlice(s, 1, |s|);
      CharsFromTrans(DropDisallowed(s[1..]), s[1..], s);
      if Kept(s[0]) {
        CharsFromSlice(s, 0, 1);
        CharsFromAppend([s[0]], DropDisallowed(s[1..]), s);
      }
    }
  }

  lemma {:induction false} ShortenChars(s: string)
    ensures CharsFrom(ShortenUrls(s), s)
    decreases |s|
  {
    if s != [] {
      if UrlStart(s) {
        var k := TokenLen(s);
        UrlTokenLen(s);
        HostChars(s[..k]);
        CharsFromSlice(s, 0, k);
        CharsFromTrans(Host(s[..k]), s[..k], s);
        ShortenChars(s[k..]);
        CharsFromSlice(s, k, |s|);
        CharsFromTrans(ShortenUrls(s[k..]), s[k..], s);
        CharsFromAppend(Host(s[..k]), ShortenUrls(s[k..]), s);
      } else {
        ShortenChars(s[1..]);
        CharsFromSlice(s, 1, |s|);
        CharsFromTrans(ShortenUrls(s[1..]), s[1..], s);
        CharsFromSlice(s, 0, 1);
        CharsFromAppend([s[0]], ShortenUrls(s[1..]), s);
      }
    }
  }

  lemma {:induction false} NormalizeChars(s: string)
    ensures CharsFrom(NormalizePercent(s), s)
    decreases |s|
  {
    if s != [] {
      if DigitRun(s) > 0 && SpacesThenPercent(s[DigitRun(s)..]) {
        MatchPercent(s);
        NormalizeChars(s[PercentAt(s) + 1..]);
        CharsFromReplacement(s, DigitRun(s), PercentAt(s), NormalizePercent(s[PercentAt(s) + 1..]));
        NormalizeMatch(s);
      } else {
        NormalizeChars(s[1..]);
        CharsFromCons(s, NormalizePercent(s[1..]));
      }
    }
  }

  lemma CharsFromReplacement(s: string, d: nat, e: nat, rest: string)
    requires d <= e < |s| && s[e] == '%' && CharsFrom(rest, s[e + 1..])
    ensures CharsFrom(s[..d] + "%" + rest, s)
  {
    CharsFromSlice(s, e + 1, |s|);
    CharsFromTrans(rest, s[e + 1..], s);
    CharsFromSlice(s, 0, d);
    CharsFromSlice(s, e, e + 1);
    assert s[e..e + 1] == "%";
    CharsFromAppend(s[..d], "%", s);
    CharsFromAppend(s[..d] + "%", rest, s);
  }

  lemma CharsFromCons(s: string, rest: string)
    requires s != [] && CharsFrom(rest, s[1..])
    ensures CharsFrom([s[0]] + rest, s)
  {
    CharsFromSlice(s, 1, |s|);
    CharsFromTrans(rest, s[1..], s);
    CharsFromSlice(s, 0, 1);
    CharsFromAppend([s[0]], rest, s);
  }


  // ------------------------------------------------ text the stages leave alone

  lemma {:induction false} DropAllKept(s: string)
    requires forall i :: 0 <= i < |s| ==> Kept(s[i])
    ensures DropDisallowed(s) == s
  {
    if s != [] {
      DropAllKept(s[1..]);
      assert s == [s[0]] + s[1..];
    }
  }

  lemma {:induction false} DropConcat(a: string, b: string)
    ensures DropDisallowed(a + b) == DropDisallowed(a) + DropDisallowed(b)
  {
    if a == [] {
      assert a + b == b;
    } else {
      assert (a + b)[0] == a[0] && (a + b)[1..] == a[1..] + b;
      DropConcat(a[1..], b);
    }
  }

  /** Every match of the URL pattern contains a `:`. */
  lemma UrlHasColon(s: string)
    ensures UrlStart(s) ==> ':' in s
  {
    if |s| > 8 && s[..8] == "https://" {
      assert s[5] == s[..8][5];
    } else if |s| > 7 && s[..7] == "http://" {
      assert s[4] == s[..7][4];
    }
  }

  /** Without a `:` the URL pattern cannot match, and the third stage changes
      nothing. */
  lemma {:induction false} ShortenWithoutColon(s: string)
    requires ':' !in s
    ensures ShortenUrls(s) == s
  {
    if s != [] {
      UrlHasColon(s);
      assert ShortenUrls(s) == [s[0]] + ShortenUrls(s[1..]);
      assert ':' !in s[1..];
      ShortenWithoutColon(s[1..]);
      assert s == [s[0]] + s[1..];
    }
  }

  /** Without a `%` the fourth stage changes nothing. */
  lemma {:induction false} NormalizeWithoutPercent(s: string)
    requires '%' !in s
    ensures NormalizePercent(s) == s
  {
    if s != [] {
      MatchHasPercent(s);
      assert '%' !in s[1..];
      NormalizeWithoutPercent(s[1..]);
      assert s == [s[0]] + s[1..];
    }
  }

  /** A single stripped segment without `.` comes out of the fifth stage
      unchanged. */
  lemma DedupeSegmentsSingle(s: string)
    requires s != [] && '.' !in s && !IsSpace(s[0]) && !IsSpace(s[|s| - 1])
    ensures DedupeSegments(s) == s
  {
    SplitWithPrefix(s, [], '.');
    assert s + [] == s;
    assert Split(s, '.') == [s];
    StripOfStripped(s);
    assert StripEach([s]) == [s];
    assert |Lower(s)| == |s|;
    assert Dedupe([s], {}) == [s];
  }

  /** The conditions under which stages 2 to 5 leave a text alone. */
  ghost predicate Plain(s: string) {
    && s != [] && !IsSpace(s[0]) && !IsSpace(s[|s| - 1])
    && (forall i :: 0 <= i < |s| ==> Kept(s[i]))
    && ':' !in s && '%' !in s && '.' !in s
  }

  lemma StagesTwoToFiveKeepPlain(s: string)
    requires Plain(s)
    ensures DedupeSegments(NormalizePercent(ShortenUrls(DropDisallowed(s)))) == s
  {
    DropAllKept(s);
    ShortenWithoutColon(s);
    NormalizeWithoutPercent(s);
    DedupeSegmentsSingle(s);
  }

  /** A text that is already single-spaced, stripped, inside the allow-list and
      free of `:`, `%` and `.` is a fixed point of `clean_text`. */
  lemma CleanPlain(s: string)
    requires Plain(s) && Collapsed(s)
    ensures Clean(s) == s
  {
    CollapseCollapsed(s);
    StagesTwoToFiveKeepPlain(s);
  }

  /** A character that every stage keeps and that starts no match. */
  ghost predicate PlainChar(x: char) { IsWordChar(x) && x != ':' && x != '%' && x != '.' && !IsSpace(x) }

  lemma BangCollapsed(x: char, y: char)
    requires PlainChar(x) && PlainChar(y)
    ensures Collapsed([x, ' ', '!', ' ', y])
  {
  }

  lemma DropBang(x: char, y: char)
    requires PlainChar(x) && PlainChar(y)
    ensures DropDisallowed([x, ' ', '!', ' ', y]) == [x, ' ', ' ', y]
  {
    var s := [x, ' ', '!', ' ', y];
    calc {
      DropDisallowed(s);
      { assert s == [x, ' '] + (['!'] + [' ', y]); }
      DropDisallowed([x, ' '] + (['!'] + [' ', y]));
      { DropConcat([x, ' '], ['!'] + [' ', y]); }
      DropDisallowed([x, ' ']) + DropDisallowed(['!'] + [' ', y]);
      { DropConcat(['!'], [' ', y]); }
      DropDisallowed([x, ' ']) + (DropDisallowed(['!']) + DropDisallowed([' ', y]));
      { DropAllKept([x, ' ']); DropAllKept([' ', y]); assert DropDisallowed(['!']) == []; }
      [x, ' '] + ([] + [' ', y]);
    }
  }

  lemma PlainGap(x: char, y: char)
    requires PlainChar(x) && PlainChar(y)
    ensures Plain([x, ' ', ' ', y]) && Plain([x, ' ', y])
  {
  }

  lemma CleanRemovesBang(x: char, y: char)
    requires PlainChar(x) && PlainChar(y)
    ensures Clean([x, ' ', '!', ' ', y]) == [x, ' ', ' ', y]
  {
    var s, t := [x, ' ', '!', ' ', y], [x, ' ', ' ', y];
    assert CollapseWhitespace(s) == s by {
      BangCollapsed(x, y);
      CollapseCollapsed(s);
    }
    assert DropDisallowed(s) == t by { DropBang(x, y); }
    assert DedupeSegments(NormalizePercent(ShortenUrls(t))) == t by {
      PlainGap(x, y);
      DropAllKept(t);
      StagesTwoToFiveKeepPlain(t);
    }
    assert Normalize(s) == NormalizePercent(ShortenUrls(t));
  }

  lemma CollapseCons(c: char, t: string)
    requires !IsSpace(c)
    ensures CollapseWhitespace([c] + t) == [c] + CollapseWhitespace(t)
  {
    assert ([c] + t)[1..] == t;
  }

  lemma CollapseSpaceCons(t: string)
    ensures CollapseWhitespace([' '] + t) == [' '] + CollapseWhitespace(TrimLeft(t))
  {
    assert ([' '] + t)[1..] == t;
  }

  lemma CollapseSingle(y: char)
    requires !IsSpace(y)
    ensures CollapseWhitespace([y]) == [y]
  {
    assert [y][1..] == [];
  }

  lemma TrimSpaceBefore(y: char)
    requires !IsSpace(y)
    ensures TrimLeft([' ', y]) == [y]
  {
    assert [' ', y][1..] == [y];
  }

  lemma GapDisplays(x: char, y: char)
    ensures [x, ' ', ' ', y] == [x] + ([' '] + [' ', y])
    ensures [x, ' ', y] == [x] + ([' '] + [y])
  {
  }

  lemma CollapseGap(x: char, y: char)
    requires !IsSpace(x) && !IsSpace(y)
    ensures CollapseWhitespace([x, ' ', ' ', y]) == [x, ' ', y]
  {
    CollapseSingle(y);
    TrimSpaceBefore(y);
    CollapseSpaceCons([' ', y]);
    CollapseCons(x, [' '] + [' ', y]);
    GapDisplays(x, y);
  }

  lemma CleanCollapsesGap(x: char, y: char)
    requires PlainChar(x) && PlainChar(y)
    ensures Clean([x, ' ', ' ', y]) == [x, ' ', y]
  {
    var s, t := [x, ' ', ' ', y], [x, ' ', y];
    assert CollapseWhitespace(s) == t by { CollapseGap(x, y); }
    assert DedupeSegments(NormalizePercent(ShortenUrls(t))) == t by {
      PlainGap(x, y);
      DropAllKept(t);
      StagesTwoToFiveKeepPlain(t);
    }
    assert Normalize(s) == NormalizePercent(ShortenUrls(DropDisallowed(t)));
    assert DropDisallowed(t) == t by { PlainGap(x, y); DropAllKept(t); }
  }

  /** `clean_text` is not idempotent: a removed character can leave two
      spaces side by side, which a second pass collapses. */
  lemma CleanNotIdempotent(x: char, y: char)
    requires PlainChar(x) && PlainChar(y)
    ensures Clean(Clean([x, ' ', '!', ' ', y])) != Clean([x, ' ', '!', ' ', y])
  {
    CleanRemovesBang(x, y);
    CleanCollapsesGap(x, y);
    assert |[x, ' ', ' ', y]| != |[x, ' ', y]|;
  }

  lemma CleanNotIdempotentExample()
    ensures Clean(Clean("a ! b")) != Clean("a ! b")
  {
    assert "a ! b" == ['a', ' ', '!', ' ', 'b'];
    CleanNotIdempotent('a', 'b');
  }

  /** Stages 1 to 3 leave a figure `a.b%` alone. */
  lemma DecimalKept(a: char, b: char)
    requires IsDigit(a) && IsDigit(b)
    ensures ShortenUrls(DropDisallowed(CollapseWhitespace([a, '.', b, '%']))) == [a, '.', b, '%']
  {
    var s := [a, '.', b, '%'];
    assert Collapsed(s);
    CollapseCollapsed(s);
    DropAllKept(s);
    ShortenWithoutColon(s);
  }

  lemma DecimalNormalize(a: char, b: char)
    requires IsDigit(a) && IsDigit(b)
    ensures NormalizePercent([a, '.', b, '%']) == [a, '.', b, '%']
  {
    var s := [a, '.', b, '%'];
    PercentGapClosed([b], [], []);
    assert [b] + [] + "%" + [] == s[2..];
    assert NormalizePercent(s[1..]) == ['.'] + NormalizePercent(s[2..]) by {
      assert DigitRun(s[1..]) == 0 && s[1..][1..] == s[2..];
    }
    assert DigitRun(s) == 1 && !SpacesThenPercent(s[1..]);
  }

  lemma DecimalSplit(a: char, b: char)
    requires IsDigit(a) && IsDigit(b)
    ensures Split([a, '.', b, '%'], '.') == [[a], [b, '%']]
  {
    var empty: string := [];
    SplitWithPrefix([b, '%'], empty, '.');
    assert [b, '%'] + empty == [b, '%'];
    var rest := Split(['.', b, '%'], '.');
    assert rest == [empty] + Split([b, '%'], '.') by {
      assert ['.', b, '%'][1..] == [b, '%'];
    }
    assert rest[0] == empty && rest[1..] == [[b, '%']];
    SplitWithPrefix([a], ['.', b, '%'], '.');
    assert [a] + ['.', b, '%'] == [a, '.', b, '%'] && [a] + empty == [a];
  }

  /** Two lines with different non-empty keys are both kept. */
  lemma DedupeTwo(x: string, y: string)
    requires Lower(x) != [] && Lower(y) != [] && Lower(x) != Lower(y)
    ensures Dedupe([x, y], {}) == [x, y]
  {
    var seen: set<string> := {};
    assert [x, y][1..] == [y];
    var tail: seq<string> := [];
    assert [y][1..] == tail;
    assert Dedupe([y], seen + {Lower(x)}) == [y];
  }

  lemma DecimalDedupe(a: char, b: char)
    requires IsDigit(a) && IsDigit(b)
    ensures Dedupe(StripEach([[a], [b, '%']]), {}) == [[a], [b, '%']]
  {
    var lines: seq<string> := [[a], [b, '%']];
    assert StripEach(lines) == lines by {
      StripOfStripped([a]);
      StripOfStripped([b, '%']);
    }
    assert |Lower([a])| == 1 && |Lower([b, '%'])| == 2;
    DedupeTwo([a], [b, '%']);
  }

  /** The fifth stage splits at every `.`, a decimal point included, so a
      figure such as `8.5%` comes out with a space after its point:
      `8. 5%`. */
  lemma CleanSplitsDecimal(a: char, b: char)
    requires IsDigit(a) && IsDigit(b)
    ensures Clean([a, '.', b, '%']) == [a, '.', ' ', b, '%']
  {
    var s := [a, '.', b, '%'];
    var pieces: seq<string> := [[a], [b, '%']];
    calc {
      Clean(s);
      DedupeSegments(Normalize(s));
      { DecimalKept(a, b); DecimalNormalize(a, b); }
      DedupeSegments(s);
      { DecimalSplit(a, b); }
      Join(Dedupe(StripEach(pieces), {}), ". ");
      { DecimalDedupe(a, b); }
      Join(pieces, ". ");
      { assert pieces[1..] == [[b, '%']]; }
      [a, '.', ' ', b, '%'];
    }
  }

  lemma CleanSplitsDecimalExample()
    ensures Clean("8.5%") == "8. 5%"
  {
    CleanSplitsDecimal('8', '5');
    assert "8.5%" == ['8', '.', '5', '%'] && "8. 5%" == ['8', '.', ' ', '5', '%'];
  }
}
