/**
 * The removal sendComment applies to the newsletter text before it sends it
 * back: `verification.replace(/!\[.*?\]\(data:image\/[^)]+\)/g, '')`.
 *
 * The pattern is modelled as the RegExp engine evaluates it (leftmost start;
 * at that start the shortest alternative text that lets the rest match), next
 * to the removal it is evidently meant to perform: drop each image token whose
 * reference is inline image data and keep every other token.
 */
module DataImage {
  import opened Wrappers
  import opened JsText
  import opened ImageToken

  /** What separates the alternative text from the payload of an inline image. */
  const DataOpen: string := "](data:image/"

  /**
   * The pattern matches at i with an alternative text of k characters and a
   * payload (the `[^)]+` part) of m characters; the match is k + m + 16 long.
   */
  predicate DataMatchesAt(s: string, i: int, k: nat, m: nat) {
    0 <= i && i + k + m + 16 <= |s| &&
    s[i] == '!' && s[i + 1] == '[' && LineFree(s, i + 2, i + 2 + k) &&
    s[i + 2 + k..i + 15 + k] == DataOpen &&
    m >= 1 && (forall j :: i + 15 + k <= j < i + 15 + k + m ==> s[j] != ')') &&
    s[i + 15 + k + m] == ')'
  }

  /** The first `)` at or after j, on any line. */
  function FindClose(s: string, j: nat): (r: Option<nat>)
    requires j <= |s|
    ensures r.Some? ==> j <= r.value < |s| && s[r.value] == ')'
    ensures r.Some? ==> forall q :: j <= q < r.value ==> s[q] != ')'
    ensures r.None? ==> forall q :: j <= q < |s| ==> s[q] != ')'
    decreases |s| - j
  {
    if j == |s| then None
    else if s[j] == ')' then Some(j)
    else FindClose(s, j + 1)
  }

  /**
   * The engine's attempt at i, trying alternative texts of k characters and
   * longer (the lazy `.*?` grows one character at a time and cannot cross a
   * line terminator). For each length the greedy `[^)]+` runs to the first `)`,
   * so the payload is determined by the alternative text. The result is the
   * least alternative length that matches, with its payload length.
   */
  function DataTokenFrom(s: string, i: nat, k: nat): (r: Option<(nat, nat)>)
    requires i + 2 + k <= |s| && s[i] == '!' && s[i + 1] == '['
    requires LineFree(s, i + 2, i + 2 + k)
    ensures r.Some? ==> k <= r.value.0 && DataMatchesAt(s, i, r.value.0, r.value.1)
    decreases |s| - k
  {
    var c := i + 15 + k;
    if c < |s| && s[i + 2 + k..c] == DataOpen && s[c] != ')' && FindClose(s, c + 1).Some? then
      Some((k, FindClose(s, c + 1).value - c))
    else if i + 2 + k < |s| && !IsLineTerminator(s[i + 2 + k]) then
      DataTokenFrom(s, i, k + 1)
    else
      None
  }

  /** A match with an alternative text of k characters is the one the attempt at k finds. */
  lemma MatchFixesPayload(s: string, i: nat, k: nat, m: nat)
    requires DataMatchesAt(s, i, k, m)
    ensures i + 15 + k < |s| && s[i + 2 + k..i + 15 + k] == DataOpen && s[i + 15 + k] != ')'
    ensures FindClose(s, i + 16 + k) == Some(i + 15 + k + m)
  {
  }

  /**
   * The attempt from k finds the least alternative length from k on that
   * matches, and at that length the only payload.
   */
  lemma {:induction false} DataTokenFromSpec(s: string, i: nat, k: nat)
    requires i + 2 + k <= |s| && s[i] == '!' && s[i + 1] == '['
    requires LineFree(s, i + 2, i + 2 + k)
    ensures var r := DataTokenFrom(s, i, k);
      r.Some? ==> forall m' :: DataMatchesAt(s, i, r.value.0, m') ==> m' == r.value.1
    ensures var r := DataTokenFrom(s, i, k);
      forall k', m' :: k <= k' && DataMatchesAt(s, i, k', m') ==> r.Some? && r.value.0 <= k'
    decreases |s| - k
  {
    var r := DataTokenFrom(s, i, k);
    var c := i + 15 + k;
    forall m': nat | DataMatchesAt(s, i, k, m')
      ensures r == Some((k, m'))
    {
      MatchFixesPayload(s, i, k, m');
    }
    if c < |s| && s[i + 2 + k..c] == DataOpen && s[c] != ')' && FindClose(s, c + 1).Some? {
    } else if i + 2 + k < |s| && !IsLineTerminator(s[i + 2 + k]) {
      DataTokenFromSpec(s, i, k + 1);
    } else {
      forall k': nat, m': nat | k < k' && DataMatchesAt(s, i, k', m')
        ensures false
      {
      }
    }
  }

  /** The match that starts exactly at i, as (alternative length, payload length). */
  function DataTokenAt(s: string, i: nat): (r: Option<(nat, nat)>)
    requires i <= |s|
    ensures r.Some? ==> DataMatchesAt(s, i, r.value.0, r.value.1)
    ensures r.None? ==> forall k, m :: !DataMatchesAt(s, i, k, m)
  {
    if i + 1 < |s| && s[i] == '!' && s[i + 1] == '[' then
      DataTokenFromSpec(s, i, 0);
      DataTokenFrom(s, i, 0)
    else None
  }

  /** The leftmost match at or after p, as (start, alternative length, payload length). */
  function FindDataToken(s: string, p: nat): (r: Option<(nat, nat, nat)>)
    requires p <= |s|
    ensures r.Some? ==> p <= r.value.0 <= |s| && DataTokenAt(s, r.value.0) == Some((r.value.1, r.value.2))
    ensures r.Some? ==> forall i :: p <= i < r.value.0 ==> DataTokenAt(s, i).None?
    ensures r.None? ==> forall i :: p <= i <= |s| ==> DataTokenAt(s, i).None?
    decreases |s| - p
  {
    if p == |s| then None
    else match DataTokenAt(s, p)
      case Some((k, m)) => Some((p, k, m))
      case None => FindDataToken(s, p + 1)
  }

  /** The global replace started at p: the text between matches, the matches dropped. */
  function StripDataFrom(s: string, p: nat): string
    requires p <= |s|
    decreases |s| - p
  {
    match FindDataToken(s, p)
    case None => s[p..]
    case Some((i, k, m)) => s[p..i] + StripDataFrom(s, i + k + m + 16)
  }

  /** `s.replace(/!\[.*?\]\(data:image\/[^)]+\)/g, '')`, as written. */
  function StripDataImagesAsWritten(s: string): string {
    StripDataFrom(s, 0)
  }

  /**
   * The global replace removes text exactly when the pattern matches: the
   * result is never longer than what it searched, and as long only when
   * there is no match.
   */
  lemma {:induction false} AsWrittenLength(s: string, p: nat)
    requires p <= |s|
    ensures |StripDataFrom(s, p)| <= |s| - p
    ensures |StripDataFrom(s, p)| == |s| - p <==> FindDataToken(s, p).None?
    decreases |s| - p
  {
    if FindDataToken(s, p).Some? {
      var i, e := StripStep(s, p);
      AsWrittenLength(s, e);
    }
  }

  /** One step of the global replace: the text before the match is kept and the match dropped. */
  lemma StripStep(s: string, p: nat) returns (i: nat, e: nat)
    requires p <= |s| && FindDataToken(s, p).Some?
    ensures p <= i < e <= |s|
    ensures StripDataFrom(s, p) == s[p..i] + StripDataFrom(s, e)
  {
    var f := FindDataToken(s, p).value;
    i := f.0;
    e := f.0 + f.1 + f.2 + 16;
    assert DataMatchesAt(s, i, f.1, f.2);
  }

  /** Text in which `](data:image/` never occurs holds no match of the pattern. */
  lemma NoMarkerNoDataToken(s: string)
    requires !Includes(s, DataOpen)
    ensures FindDataToken(s, 0).None?
  {
    MatchHoldsMarker(s);
  }

  /** Every match of the pattern holds `](data:image/`. */
  lemma MatchHoldsMarker(s: string)
    ensures FindDataToken(s, 0).Some? ==> Includes(s, DataOpen)
  {
    var f := FindDataToken(s, 0);
    if f.Some? {
      var i, k, m := f.value.0, f.value.1, f.value.2;
      assert DataMatchesAt(s, i, k, m);
      var j := i + 2 + k;
      assert s[j..][..|DataOpen|] == s[j..j + |DataOpen|] == DataOpen;
      assert DataOpen <= s[j..];
    }
  }

  /** An image token whose reference is inline image data. */
  predicate IsDataImage(t: Token) {
    |t.ref| > 11 && t.ref[..11] == "data:image/"
  }

  /** The text a token is replaced by: nothing for inline image data, itself otherwise. */
  function KeptText(t: Token): string {
    if IsDataImage(t) then "" else Text(t)
  }

  function Kept(ts: seq<Token>): (r: seq<string>)
    ensures |r| == |ts|
    ensures forall j :: 0 <= j < |ts| ==> r[j] == KeptText(ts[j])
  {
    if ts == [] then [] else [KeptText(ts[0])] + Kept(ts[1..])
  }

  /** The intended removal: every inline-image token is dropped, every other token and all text kept. */
  function StripDataImageTokens(s: string): string {
    var sc := ScanAll(s);
    Weave(sc.gaps, Kept(sc.tokens))
  }

  /** Text holding no inline-image token is sent back unchanged. */
  lemma {:induction false} NoDataTokenKeepsText(s: string)
    requires forall j :: 0 <= j < |ScanAll(s).tokens| ==> !IsDataImage(ScanAll(s).tokens[j])
    ensures StripDataImageTokens(s) == s
  {
    var sc := ScanAll(s);
    assert Kept(sc.tokens) == Texts(sc.tokens);
    assert s[0..] == s;
  }

  /** Weaving the gaps with empty separators is concatenating the gaps. */
  lemma {:induction false} WeaveEmptySeparators(gaps: seq<string>, seps: seq<string>)
    requires |gaps| == |seps| + 1
    requires forall j :: 0 <= j < |seps| ==> seps[j] == ""
    ensures Weave(gaps, seps) == Concat(gaps)
  {
    if seps != [] {
      WeaveEmptySeparators(gaps[1..], seps[1..]);
    }
  }

  /**
   * Text whose every token is inline image data loses all of them: the removal
   * then agrees with the removal of every image token that the response
   * extraction performs.
   */
  lemma AllDataTokensStripLikeResponse(s: string)
    requires forall j :: 0 <= j < |ScanAll(s).tokens| ==> IsDataImage(ScanAll(s).tokens[j])
    ensures StripDataImageTokens(s) == StripTokens(s)
  {
    var sc := ScanAll(s);
    WeaveEmptySeparators(sc.gaps, Kept(sc.tokens));
  }

  /** On the counterexample, the engine's attempt at 0 settles on an alternative text of six characters. */
  lemma {:induction false} AttemptAtZero(k: nat)
    requires k <= 6
    ensures DataTokenFrom("![](u)![](data:image/x)", 0, k) == Some((6, 1))
    decreases 6 - k
  {
    var s := "![](u)![](data:image/x)";
    if k == 6 {
      assert s[8..21] == DataOpen;
    } else {
      AttemptAtZero(k + 1);
      NoDataOpenBefore(k);
    }
  }

  /** Before six characters of alternative text, the counterexample shows no `](data:image/`. */
  lemma NoDataOpenBefore(k: nat)
    requires k < 6
    ensures var s := "![](u)![](data:image/x)";
      s[2 + k..15 + k] != DataOpen && !IsLineTerminator(s[2 + k])
  {
    var s := "![](u)![](data:image/x)";
    var c := s[4 + k];
    assert c == (if k == 0 then 'u' else if k == 1 then ')' else if k == 2 then '!'
      else if k == 3 then '[' else if k == 4 then ']' else '(');
    assert s[2 + k..15 + k][2] == c != DataOpen[2];
    assert s[2 + k] in "](u)![";
  }

  /**
   * The pattern as written removes an ordinary image token together with the
   * inline image that follows it on the same line: the lazy `.*?` is let grow
   * past the first token's `](` until `](data:image/` follows.
   */
  lemma AsWrittenSwallowsPrecedingToken()
    ensures StripDataImagesAsWritten("![](u)![](data:image/x)") == ""
  {
    var s := "![](u)![](data:image/x)";
    AttemptAtZero(0);
    assert FindDataToken(s, 0) == Some((0, 6, 1));
  }

  /**
   * The intended removal keeps an ordinary image token followed by an inline
   * image and drops only the inline image.
   */
  lemma CorrectedKeepsOrdinaryToken(a: Token, b: Token)
    requires IsLazyToken(a) && IsLazyToken(b) && !IsDataImage(a) && IsDataImage(b)
    ensures StripDataImageTokens(Text(a) + Text(b)) == Text(a)
  {
    ScanOfTwoTokens(a, b);
    var sc := ScanAll(Text(a) + Text(b));
    var kept := Kept(sc.tokens);
    assert kept == [Text(a), ""];
    assert Weave([""], []) == "";
    assert Weave(["", ""], [""]) == "" by {
      assert ["", ""][1..] == [""];
    }
    assert Weave(sc.gaps, kept) == Text(a) by {
      assert sc.gaps[1..] == ["", ""] && kept[1..] == [""];
    }
  }
}
