/**
 * Embedded image tokens `![alt](reference)`, as matched by the JavaScript
 * regular expression /!\[.*?\]\((.*?)\)/ (the same pattern, with or without the
 * capturing group, is used by the response extractor and the markdown preview).
 *
 * Regular-expression semantics: a search takes the leftmost position at which
 * the pattern can match; there, the lazy `.*?` groups take the shortest
 * alternative text for which the rest can still match, then the shortest
 * reference. Neither `.` matches a line terminator. A global `split`, `replace`
 * or `match` restarts the search where the previous match ended.
 */
module ImageToken {
  import opened Wrappers
  import opened JsText

  /** One match: the alternative text and the captured reference. */
  datatype Token = Token(alt: string, ref: string)

  /** The text the regular expression matched. */
  function Text(t: Token): string {
    "![" + t.alt + "](" + t.ref + ")"
  }

  /** The pattern matches at i with an alternative text of k and a reference of m characters. */
  predicate MatchesAt(s: string, i: int, k: nat, m: nat) {
    0 <= i && i + k + m + 5 <= |s| &&
    s[i] == '!' && s[i + 1] == '[' && LineFree(s, i + 2, i + 2 + k) &&
    s[i + 2 + k] == ']' && s[i + 3 + k] == '(' &&
    LineFree(s, i + 4 + k, i + 4 + k + m) && s[i + 4 + k + m] == ')'
  }

  /** Laziness seen from the token: its alternative text holds no `](`, its reference no `)`, neither a line terminator. */
  predicate IsLazyToken(t: Token) {
    (forall j :: 0 <= j < |t.alt| ==> !IsLineTerminator(t.alt[j])) &&
    (forall j :: 0 <= j < |t.alt| - 1 ==> !(t.alt[j] == ']' && t.alt[j + 1] == '(')) &&
    (forall j :: 0 <= j < |t.ref| ==> !IsLineTerminator(t.ref[j]) && t.ref[j] != ')')
  }

  /** The first `](` at or after j that is reached without crossing a line terminator. */
  function FindAltEnd(s: string, j: nat): (r: Option<nat>)
    requires j <= |s|
    ensures r.Some? ==> j <= r.value && r.value + 1 < |s|
    decreases |s| - j
  {
    if j + 1 >= |s| then None
    else if s[j] == ']' && s[j + 1] == '(' then Some(j)
    else if IsLineTerminator(s[j]) then None
    else FindAltEnd(s, j + 1)
  }

  /** FindAltEnd stops at the first `](`, and finds one whenever one is reached before a line ends. */
  lemma {:induction false} FindAltEndSpec(s: string, j: nat)
    requires j <= |s|
    ensures var r := FindAltEnd(s, j);
      (r.Some? ==> s[r.value] == ']' && s[r.value + 1] == '(' && LineFree(s, j, r.value)) &&
      (r.Some? ==> forall p :: j <= p < r.value ==> !(s[p] == ']' && s[p + 1] == '(')) &&
      (r.None? ==> forall p :: j <= p < |s| - 1 && s[p] == ']' && s[p + 1] == '(' ==> !LineFree(s, j, p))
    decreases |s| - j
  {
    if j + 1 < |s| && !(s[j] == ']' && s[j + 1] == '(') && !IsLineTerminator(s[j]) {
      FindAltEndSpec(s, j + 1);
    }
  }

  /** The first `)` at or after j that is reached without crossing a line terminator. */
  function FindRefEnd(s: string, j: nat): (r: Option<nat>)
    requires j <= |s|
    ensures r.Some? ==> j <= r.value < |s|
    decreases |s| - j
  {
    if j >= |s| then None
    else if s[j] == ')' then Some(j)
    else if IsLineTerminator(s[j]) then None
    else FindRefEnd(s, j + 1)
  }

  /** FindRefEnd stops at the first `)`, and finds one whenever one is reached before a line ends. */
  lemma {:induction false} FindRefEndSpec(s: string, j: nat)
    requires j <= |s|
    ensures var r := FindRefEnd(s, j);
      (r.Some? ==> s[r.value] == ')' && LineFree(s, j, r.value)) &&
      (r.Some? ==> forall q :: j <= q < r.value ==> s[q] != ')') &&
      (r.None? ==> forall q :: j <= q < |s| && s[q] == ')' ==> !LineFree(s, j, q))
    decreases |s| - j
  {
    if j < |s| && s[j] != ')' && !IsLineTerminator(s[j]) {
      FindRefEndSpec(s, j + 1);
    }
  }

  /** The match that starts exactly at i, if any. */
  function TokenAt(s: string, i: nat): (r: Option<Token>)
    requires i <= |s|
    ensures r.Some? ==> i + |Text(r.value)| <= |s|
  {
    if i + 1 < |s| && s[i] == '!' && s[i + 1] == '[' then
      match FindAltEnd(s, i + 2)
      case None => None
      case Some(p) =>
        match FindRefEnd(s, p + 2)
        case None => None
        case Some(q) => Some(Token(s[i + 2..p], s[p + 2..q]))
    else None
  }

  /** A match found at i is a lazy match of the pattern, and its text is what s holds there. */
  lemma TokenAtSpec(s: string, i: nat)
    requires i <= |s| && TokenAt(s, i).Some?
    ensures var t := TokenAt(s, i).value;
      MatchesAt(s, i, |t.alt|, |t.ref|) && s[i..i + |Text(t)|] == Text(t) && IsLazyToken(t)
  {
    var p := FindAltEnd(s, i + 2).value;
    var q := FindRefEnd(s, p + 2).value;
    var t := TokenAt(s, i).value;
    assert t == Token(s[i + 2..p], s[p + 2..q]);
    FindAltEndSpec(s, i + 2);
    FindRefEndSpec(s, p + 2);
    TokenParts(s, i, p, q);
    assert i + |Text(t)| == q + 1;
  }

  /** The token cut out of s by the delimiters at i, p and q. */
  lemma TokenParts(s: string, i: nat, p: nat, q: nat)
    requires i + 2 <= p && p + 2 <= q < |s|
    requires s[i] == '!' && s[i + 1] == '[' && s[p] == ']' && s[p + 1] == '(' && s[q] == ')'
    requires LineFree(s, i + 2, p) && LineFree(s, p + 2, q)
    requires forall x :: i + 2 <= x < p ==> !(s[x] == ']' && s[x + 1] == '(')
    requires forall x :: p + 2 <= x < q ==> s[x] != ')'
    ensures var t := Token(s[i + 2..p], s[p + 2..q]);
      MatchesAt(s, i, |t.alt|, |t.ref|) && i + |Text(t)| == q + 1 && s[i..q + 1] == Text(t) && IsLazyToken(t)
  {
    var alt, ref := s[i + 2..p], s[p + 2..q];
    assert forall j :: 0 <= j < |alt| ==> alt[j] == s[i + 2 + j];
    assert forall j :: 0 <= j < |ref| ==> ref[j] == s[p + 2 + j];
    assert s[i..q + 1] == s[i..i + 2] + alt + s[p..p + 2] + ref + s[q..q + 1];
  }

  /**
   * TokenAt is the regular expression's choice at i: whenever the pattern can
   * match there, TokenAt finds a match, with the least alternative text and,
   * for that, the least reference.
   */
  lemma LazyMatch(s: string, i: nat, k: nat, m: nat)
    requires i <= |s| && MatchesAt(s, i, k, m)
    ensures TokenAt(s, i).Some?
    ensures var t := TokenAt(s, i).value;
      |t.alt| < k || (|t.alt| == k && |t.ref| <= m)
  {
    var a := FindAltEnd(s, i + 2);
    FindAltEndSpec(s, i + 2);
    if a.None? {
      assert false;
    }
    var p := a.value;
    assert p <= i + 2 + k;
    var q0 := i + 4 + k + m;
    assert LineFree(s, p + 2, q0) by {
      forall j | p + 2 <= j < q0 ensures !IsLineTerminator(s[j]) {
        if j < i + 2 + k { assert LineFree(s, i + 2, i + 2 + k); }
        else if j >= i + 4 + k { assert LineFree(s, i + 4 + k, q0); }
      }
    }
    var b := FindRefEnd(s, p + 2);
    FindRefEndSpec(s, p + 2);
    if b.None? {
      assert false;
    }
  }

  /** The leftmost match at or after p, with its start. */
  function FindToken(s: string, p: nat): (r: Option<(nat, Token)>)
    requires p <= |s|
    ensures r.Some? ==> p <= r.value.0 <= |s| && TokenAt(s, r.value.0) == Some(r.value.1)
    ensures r.Some? ==> forall i :: p <= i < r.value.0 ==> TokenAt(s, i).None?
    ensures r.None? ==> forall i :: p <= i <= |s| ==> TokenAt(s, i).None?
    decreases |s| - p
  {
    if p == |s| then None
    else if TokenAt(s, p).Some? then Some((p, TokenAt(s, p).value))
    else FindToken(s, p + 1)
  }

  /** The pieces of a global search: the text between matches, and the matches. */
  datatype Scan = Scan(gaps: seq<string>, tokens: seq<Token>)

  /** gaps[0] + Text(tokens[0]) + gaps[1] + … + gaps[n]. */
  function Weave(gaps: seq<string>, seps: seq<string>): string
    requires |gaps| == |seps| + 1
  {
    if seps == [] then gaps[0] else gaps[0] + seps[0] + Weave(gaps[1..], seps[1..])
  }

  /** The matched texts of a list of tokens. */
  function Texts(ts: seq<Token>): (r: seq<string>)
    ensures |r| == |ts| && forall j :: 0 <= j < |ts| ==> r[j] == Text(ts[j])
  {
    if ts == [] then [] else [Text(ts[0])] + Texts(ts[1..])
  }

  /** All matches of a global search started at p, in document order. */
  function ScanFrom(s: string, p: nat): (r: Scan)
    requires p <= |s|
    ensures |r.gaps| == |r.tokens| + 1
    ensures Weave(r.gaps, Texts(r.tokens)) == s[p..]
    ensures forall j :: 0 <= j < |r.tokens| ==> IsLazyToken(r.tokens[j])
    decreases |s| - p
  {
    match FindToken(s, p)
    case None =>
      assert s[p..|s|] == s[p..];
      Scan([s[p..]], [])
    case Some((i, t)) =>
      var e := i + |Text(t)|;
      var rest := ScanFrom(s, e);
      TokenAtSpec(s, i);
      ScanStep(s, p, i, t, rest);
      Scan([s[p..i]] + rest.gaps, [t] + rest.tokens)
  }

  /** No gap of a global search holds a match of its own: the search skips no match. */
  lemma {:induction false} ScanGapsHoldNoToken(s: string, p: nat)
    requires p <= |s|
    ensures forall j :: 0 <= j < |ScanFrom(s, p).gaps| ==> HoldsNoToken(ScanFrom(s, p).gaps[j])
    decreases |s| - p
  {
    if FindToken(s, p).None? {
      assert ScanFrom(s, p).gaps == [s[p..|s|]] by { assert s[p..|s|] == s[p..]; }
      GapHoldsNoToken(s, p, |s|);
    } else {
      var i, t := FindToken(s, p).value.0, FindToken(s, p).value.1;
      var e := i + |Text(t)|;
      GapBeforeMatch(s, p, i, t);
      ScanGapsHoldNoToken(s, e);
      GapHoldsNoToken(s, p, i);
      ConsHoldsNoToken(ScanFrom(s, p).gaps, s[p..i], ScanFrom(s, e).gaps);
    }
  }

  /** The first gap of a search that finds a match at i runs up to it, and the search goes on after the match. */
  lemma GapBeforeMatch(s: string, p: nat, i: nat, t: Token)
    requires p <= |s| && FindToken(s, p) == Some((i, t))
    ensures p <= i && i + |Text(t)| <= |s|
    ensures ScanFrom(s, p).gaps == [s[p..i]] + ScanFrom(s, i + |Text(t)|).gaps
  {
    var found := TokenAt(s, i);
    assert found == Some(t);
    assert i + |Text(found.value)| <= |s|;
  }

  /** A search started where a match stands takes that match with an empty gap before it. */
  lemma ScanFromMatch(s: string, p: nat, t: Token)
    requires p <= |s| && FindToken(s, p) == Some((p, t))
    ensures p + |Text(t)| <= |s|
    ensures ScanFrom(s, p) ==
      Scan([""] + ScanFrom(s, p + |Text(t)|).gaps, [t] + ScanFrom(s, p + |Text(t)|).tokens)
  {
    assert s[p..p] == "";
  }

  /** A search started at the end finds nothing. */
  lemma ScanFromEnd(s: string)
    ensures ScanFrom(s, |s|) == Scan([""], [])
  {
    assert FindToken(s, |s|) == None;
  }

  /** A match that runs to the end of s is the last one, with empty gaps on both sides. */
  lemma LastMatch(s: string, i: nat, t: Token)
    requires i <= |s| && FindToken(s, i) == Some((i, t)) && i + |Text(t)| == |s|
    ensures ScanFrom(s, i) == Scan(["", ""], [t])
  {
    ScanFromEnd(s);
    ScanFromMatch(s, i, t);
  }

  /** Two lazy tokens written one after the other are found as two matches with empty gaps. */
  lemma ScanOfTwoTokens(a: Token, b: Token)
    requires IsLazyToken(a) && IsLazyToken(b)
    ensures ScanAll(Text(a) + Text(b)) == Scan(["", "", ""], [a, b])
  {
    var s := Text(a) + Text(b);
    var la := |Text(a)|;
    assert s[0..la] == Text(a);
    assert s[la..la + |Text(b)|] == Text(b);
    TokenAtText(s, 0, a);
    TokenAtText(s, la, b);
    assert FindToken(s, 0) == Some((0, a));
    assert FindToken(s, la) == Some((la, b));
    TwoMatches(s, a, b);
  }

  /** Text made of two matches, back to back, scans as those two matches. */
  lemma TwoMatches(s: string, a: Token, b: Token)
    requires |Text(a)| + |Text(b)| == |s|
    requires FindToken(s, 0) == Some((0, a)) && FindToken(s, |Text(a)|) == Some((|Text(a)|, b))
    ensures ScanFrom(s, 0) == Scan(["", "", ""], [a, b])
  {
    LastMatch(s, |Text(a)|, b);
    ScanFromMatch(s, 0, a);
    MatchBeforeLast(ScanFrom(s, 0), ScanFrom(s, |Text(a)|), a, b);
  }

  /** A match with an empty gap, in front of a last match, makes two matches with empty gaps. */
  lemma MatchBeforeLast(x: Scan, y: Scan, a: Token, b: Token)
    requires y == Scan(["", ""], [b]) && x == Scan([""] + y.gaps, [a] + y.tokens)
    ensures x == Scan(["", "", ""], [a, b])
  {
    assert [""] + y.gaps == ["", "", ""];
    assert [a] + y.tokens == [a, b];
  }

  /** Weaving one more gap and token in front. */
  lemma WeaveCons(g: string, t: Token, gaps: seq<string>, tokens: seq<Token>)
    requires |gaps| == |tokens| + 1
    ensures Weave([g] + gaps, Texts([t] + tokens)) == g + Text(t) + Weave(gaps, Texts(tokens))
  {
    assert ([g] + gaps)[1..] == gaps;
    assert Texts([t] + tokens)[1..] == Texts(tokens);
  }

  /** A match at i followed by the scan of the rest is the scan from p. */
  lemma ScanStep(s: string, p: nat, i: nat, t: Token, rest: Scan)
    requires p <= i && i + |Text(t)| <= |s| && s[i..i + |Text(t)|] == Text(t) && IsLazyToken(t)
    requires |rest.gaps| == |rest.tokens| + 1
    requires Weave(rest.gaps, Texts(rest.tokens)) == s[i + |Text(t)|..]
    requires forall j :: 0 <= j < |rest.tokens| ==> IsLazyToken(rest.tokens[j])
    ensures Weave([s[p..i]] + rest.gaps, Texts([t] + rest.tokens)) == s[p..]
    ensures forall j :: 0 <= j < |[t] + rest.tokens| ==> IsLazyToken(([t] + rest.tokens)[j])
  {
    var e := i + |Text(t)|;
    assert s[p..] == s[p..i] + s[i..e] + s[e..];
    WeaveCons(s[p..i], t, rest.gaps, rest.tokens);
    forall j | 0 <= j < |[t] + rest.tokens| ensures IsLazyToken(([t] + rest.tokens)[j]) {
      if j > 0 {
        assert ([t] + rest.tokens)[j] == rest.tokens[j - 1];
      }
    }
  }

  function ScanAll(s: string): Scan {
    ScanFrom(s, 0)
  }

  /** Concatenation of a list of strings. */
  function Concat(ss: seq<string>): string {
    if ss == [] then "" else ss[0] + Concat(ss[1..])
  }

  /** `s.replace(/!\[.*?\]\(.*?\)/g, '')`. */
  function StripTokens(s: string): string {
    Concat(ScanAll(s).gaps)
  }

  /** `s.split(/!\[.*?\]\((.*?)\)/)`: the gaps, with each captured reference between them. */
  function Interleave(gaps: seq<string>, tokens: seq<Token>): (parts: seq<string>)
    requires |gaps| == |tokens| + 1
    ensures |parts| == 2 * |tokens| + 1
    ensures forall j :: 0 <= j < |gaps| ==> parts[2 * j] == gaps[j]
    ensures forall j :: 0 <= j < |tokens| ==> parts[2 * j + 1] == tokens[j].ref
  {
    if tokens == [] then [gaps[0]]
    else
      var rest := Interleave(gaps[1..], tokens[1..]);
      assert forall j :: 1 <= j < |gaps| ==> gaps[j] == gaps[1..][j - 1];
      [gaps[0], tokens[0].ref] + rest
  }

  function Split(s: string): seq<string> {
    var sc := ScanAll(s);
    Interleave(sc.gaps, sc.tokens)
  }

  /** `s.match(/!\[.*?\]\((.*?)\)/g)`, with `null` (no match) as the empty list. */
  function MatchAll(s: string): seq<string> {
    Texts(ScanAll(s).tokens)
  }

  /** `x.match(/!\[.*?\]\((.*?)\)/)?.[1]`: the capture of the first match. */
  function FirstCapture(x: string): Option<string> {
    match FindToken(x, 0)
    case None => None
    case Some((_, t)) => Some(t.ref)
  }

  /**
   * Matching a token's own text again (the non-global `match` applied to each
   * element of the global one) finds that token at position 0, so it yields the
   * same reference.
   */
  lemma RematchToken(t: Token)
    requires IsLazyToken(t)
    ensures FindToken(Text(t), 0) == Some((0, t))
    ensures FirstCapture(Text(t)) == Some(t.ref)
  {
    var x := Text(t);
    var a, m := |t.alt|, |t.ref|;
    TextLayout(t);
    AltEndOfText(t);
    RefEndOfText(t);
    assert x[2..2 + a] == t.alt && x[4 + a..4 + a + m] == t.ref;
    assert TokenAt(x, 0) == Some(t);
  }

  /** Where the delimiters and the two parts of a token sit in its text. */
  lemma TextLayout(t: Token)
    ensures var x, a, m := Text(t), |t.alt|, |t.ref|;
      |x| == a + m + 5 &&
      x[0] == '!' && x[1] == '[' && x[2 + a] == ']' && x[3 + a] == '(' && x[4 + a + m] == ')' &&
      (forall j :: 0 <= j < a ==> x[2 + j] == t.alt[j]) &&
      (forall j :: 0 <= j < m ==> x[4 + a + j] == t.ref[j])
  {
  }

  /** In a lazy token's text, the alternative text ends at the token's own `](`. */
  lemma AltEndOfText(t: Token)
    requires IsLazyToken(t)
    ensures FindAltEnd(Text(t), 2) == Some(2 + |t.alt|)
  {
    var x, a := Text(t), |t.alt|;
    TextLayout(t);
    assert LineFree(x, 2, 2 + a);
    AltEndFrom(x, 2, 2 + a);
  }

  /** Scanning from j, the alternative text ends at p when p is the first `](` and no line ends before it. */
  lemma {:induction false} AltEndFrom(x: string, j: nat, p: nat)
    requires j <= p && p + 1 < |x| && x[p] == ']' && x[p + 1] == '('
    requires LineFree(x, j, p) && forall q :: j <= q < p ==> !(x[q] == ']' && x[q + 1] == '(')
    ensures FindAltEnd(x, j) == Some(p)
    decreases p - j
  {
    if j < p {
      AltEndFrom(x, j + 1, p);
    }
  }

  /** In a lazy token's text, the reference ends at the token's closing parenthesis. */
  lemma RefEndOfText(t: Token)
    requires IsLazyToken(t)
    ensures FindRefEnd(Text(t), 4 + |t.alt|) == Some(4 + |t.alt| + |t.ref|)
  {
    var x, a, m := Text(t), |t.alt|, |t.ref|;
    TextLayout(t);
    RefEndFrom(x, 4 + a, 4 + a + m);
  }

  /** Scanning from j, the reference ends at the first `)` when no line ends before it. */
  lemma {:induction false} RefEndFrom(x: string, j: nat, q: nat)
    requires j <= q < |x| && x[q] == ')'
    requires forall r :: j <= r < q ==> x[r] != ')' && !IsLineTerminator(x[r])
    ensures FindRefEnd(x, j) == Some(q)
    decreases q - j
  {
    if j < q {
      RefEndFrom(x, j + 1, q);
    }
  }

  /** Wherever a lazy token's text stands in s, the match at its start is that token. */
  lemma TokenAtText(s: string, i: nat, t: Token)
    requires IsLazyToken(t) && i + |Text(t)| <= |s| && s[i..i + |Text(t)|] == Text(t)
    ensures TokenAt(s, i) == Some(t)
  {
    TextAt(s, i, t);
    AltEndAt(s, i, t);
    RefEndAt(s, i, t);
  }

  /** Where a token's delimiters and parts sit in s when its text stands at i. */
  lemma TextAt(s: string, i: nat, t: Token)
    requires i + |Text(t)| <= |s| && s[i..i + |Text(t)|] == Text(t)
    ensures var a, m := |t.alt|, |t.ref|;
      s[i] == '!' && s[i + 1] == '[' && s[i + 2 + a] == ']' && s[i + 3 + a] == '(' && s[i + 4 + a + m] == ')' &&
      s[i + 2..i + 2 + a] == t.alt && s[i + 4 + a..i + 4 + a + m] == t.ref
  {
    var x, a, m := Text(t), |t.alt|, |t.ref|;
    TextLayout(t);
    assert forall j :: 0 <= j < |x| ==> s[i + j] == x[j];
    assert s[i + 2..i + 2 + a] == x[2..2 + a];
    assert s[i + 4 + a..i + 4 + a + m] == x[4 + a..4 + a + m];
  }

  /** The alternative text of a lazy token standing at i ends at its own `](`. */
  lemma AltEndAt(s: string, i: nat, t: Token)
    requires IsLazyToken(t) && i + |Text(t)| <= |s| && s[i..i + |Text(t)|] == Text(t)
    ensures FindAltEnd(s, i + 2) == Some(i + 2 + |t.alt|)
  {
    var a := |t.alt|;
    TextAt(s, i, t);
    var alt := s[i + 2..i + 2 + a];
    assert LineFree(s, i + 2, i + 2 + a) by {
      forall q | i + 2 <= q < i + 2 + a ensures !IsLineTerminator(s[q]) {
        assert s[q] == alt[q - i - 2];
      }
    }
    forall q | i + 2 <= q < i + 2 + a
      ensures !(s[q] == ']' && s[q + 1] == '(')
    {
      if q + 1 < i + 2 + a {
        assert s[q] == alt[q - i - 2] && s[q + 1] == alt[q - i - 1];
      }
    }
    AltEndFrom(s, i + 2, i + 2 + a);
  }

  /** The reference of a lazy token standing at i ends at its own `)`. */
  lemma RefEndAt(s: string, i: nat, t: Token)
    requires IsLazyToken(t) && i + |Text(t)| <= |s| && s[i..i + |Text(t)|] == Text(t)
    ensures FindRefEnd(s, i + 4 + |t.alt|) == Some(i + 4 + |t.alt| + |t.ref|)
  {
    var a, m := |t.alt|, |t.ref|;
    TextAt(s, i, t);
    var ref := s[i + 4 + a..i + 4 + a + m];
    forall r | i + 4 + a <= r < i + 4 + a + m
      ensures s[r] != ')' && !IsLineTerminator(s[r])
    {
      assert s[r] == ref[r - i - 4 - a];
    }
    RefEndFrom(s, i + 4 + a, i + 4 + a + m);
  }

  /** A match inside s[p..e] is a match inside s. */
  lemma MatchInSlice(s: string, p: nat, e: nat, i: nat, k: nat, m: nat)
    requires p <= e <= |s| && MatchesAt(s[p..e], i, k, m)
    ensures MatchesAt(s, p + i, k, m)
  {
    var g := s[p..e];
    assert forall j :: 0 <= j < |g| ==> g[j] == s[p + j];
    forall j | p + i + 2 <= j < p + i + 2 + k ensures !IsLineTerminator(s[j]) {
      assert s[j] == g[j - p];
    }
    forall j | p + i + 4 + k <= j < p + i + 4 + k + m ensures !IsLineTerminator(s[j]) {
      assert s[j] == g[j - p];
    }
  }

  /** A stretch of s at none of whose positions a match starts holds no match on its own either. */
  lemma GapHoldsNoToken(s: string, p: nat, e: nat)
    requires p <= e <= |s|
    requires forall i :: p <= i < e ==> TokenAt(s, i).None?
    ensures HoldsNoToken(s[p..e])
  {
    forall i: nat, k: nat, m: nat ensures !MatchesAt(s[p..e], i, k, m) {
      if MatchesAt(s[p..e], i, k, m) {
        MatchInSlice(s, p, e, i, k, m);
        LazyMatch(s, p + i, k, m);
      }
    }
  }

  /** No match of the pattern starts anywhere in g. */
  ghost predicate HoldsNoToken(g: string) {
    forall i: nat, k: nat, m: nat :: !MatchesAt(g, i, k, m)
  }

  /** Prefixing a gap that holds no token to gaps that hold none. */
  lemma ConsHoldsNoToken(all: seq<string>, g: string, gaps: seq<string>)
    requires all == [g] + gaps
    requires HoldsNoToken(g) && forall j :: 0 <= j < |gaps| ==> HoldsNoToken(gaps[j])
    ensures forall j :: 0 <= j < |all| ==> HoldsNoToken(all[j])
  {
    forall j | 0 <= j < |all| ensures HoldsNoToken(all[j]) {
      if j > 0 {
        assert all[j] == gaps[j - 1];
      }
    }
  }

  /** Text without a `!` holds no token and is left as it is. */
  lemma NoBangNoToken(s: string)
    requires forall j :: 0 <= j < |s| ==> s[j] != '!'
    ensures ScanAll(s) == Scan([s], [])
    ensures StripTokens(s) == s
  {
    forall i | 0 <= i <= |s| ensures TokenAt(s, i).None? {
      assert i < |s| ==> s[i] != '!';
    }
    assert FindToken(s, 0) == None;
    assert s[0..] == s;
    assert ScanFrom(s, 0) == Scan([s], []);
    assert Concat([s]) == s + Concat([]);
  }
}
