/** The URL scans of the two semantic gates: `re.findall(r"https?://[^\s]+", t)`
    and `re.findall(r"https?://[^\s\"']+", t)`, as left-to-right scans that
    resume after each match. */
module Urls {
  import opened Text

  /** Which character class ends a URL. */
  datatype UrlPattern =
    | AnyNonSpace    // `[^\s]+`
    | NoSpaceNoQuote // `[^\s"']+`

  /** `c` may not appear inside a URL matched by `p`. */
  predicate Stops(p: UrlPattern, c: char) {
    IsSpace(c) || (p == NoSpaceNoQuote && (c == '"' || c == '\''))
  }

  /** End of the maximal run of non-stopping characters starting at `i`. */
  function RunEnd(t: string, i: nat, p: UrlPattern): (e: nat)
    requires i <= |t|
    decreases |t| - i
    ensures i <= e <= |t|
    ensures e < |t| ==> Stops(p, t[e])
    ensures forall k :: i <= k < e ==> !Stops(p, t[k])
  {
    if i == |t| || Stops(p, t[i]) then i else RunEnd(t, i + 1, p)
  }

  /** The end of the match of the URL pattern anchored at `i`, or -1: the
      scheme `https://` (tried first) or `http://`, then at least one
      character of the class, taken greedily. */
  function UrlMatchAt(t: string, i: nat, p: UrlPattern): (e: int)
    requires i <= |t|
    ensures e == -1 || i < e <= |t|
    ensures e != -1 ==> (StartsWith(t[i..], "https://") || StartsWith(t[i..], "http://"))
    ensures e != -1 ==> forall k :: i <= k < e ==> !Stops(p, t[k])
    ensures e != -1 ==> e == |t| || Stops(p, t[e])
  {
    if StartsWith(t[i..], "https://") && i + 8 < |t| && !Stops(p, t[i + 8]) then
      SchemeNeverStops(t, i, "https://", p);
      RunEnd(t, i + 8, p)
    else if StartsWith(t[i..], "http://") && i + 7 < |t| && !Stops(p, t[i + 7]) then
      SchemeNeverStops(t, i, "http://", p);
      RunEnd(t, i + 7, p)
    else -1
  }

  /** The characters of a scheme are inside the URL class. */
  lemma SchemeNeverStops(t: string, i: nat, scheme: string, p: UrlPattern)
    requires scheme == "https://" || scheme == "http://"
    requires i <= |t| && StartsWith(t[i..], scheme)
    ensures forall k :: i <= k < i + |scheme| ==> !Stops(p, t[k])
  {
    forall k | i <= k < i + |scheme| ensures !Stops(p, t[k]) {
      assert t[k] == t[i..][..|scheme|][k - i] == scheme[k - i];
    }
  }

  /** All non-overlapping URL matches in `t` from position `i` on, in order. */
  function ScanFrom(t: string, i: nat, p: UrlPattern): (urls: seq<string>)
    requires i <= |t|
    decreases |t| - i
  {
    if i == |t| then []
    else
      var e := UrlMatchAt(t, i, p);
      if e == -1 then ScanFrom(t, i + 1, p) else [t[i..e]] + ScanFrom(t, e, p)
  }

  /** `re.findall` of the URL pattern over `t`. */
  function FindUrls(t: string, p: UrlPattern): seq<string> {
    ScanFrom(t, 0, p)
  }

  /** A well-formed match: it starts with a scheme, has something after the
      scheme and holds no character that would have ended it. */
  predicate IsUrl(u: string, p: UrlPattern) {
    (StartsWith(u, "https://") || StartsWith(u, "http://"))
    && |u| > 7
    && forall k :: 0 <= k < |u| ==> !Stops(p, u[k])
  }

  /** Every URL the scan returns is a well-formed match and occurs in the
      scanned text. */
  lemma {:induction false} ScanFromSound(t: string, i: nat, p: UrlPattern)
    requires i <= |t|
    decreases |t| - i
    ensures forall u :: u in ScanFrom(t, i, p) ==> IsUrl(u, p) && Contains(t, u)
  {
    if i < |t| {
      var e := UrlMatchAt(t, i, p);
      if e == -1 {
        ScanFromSound(t, i + 1, p);
      } else {
        ScanFromSound(t, e, p);
        ContainsSlice(t, i, e);
        MatchIsUrl(t, i, p);
      }
    }
  }

  /** The text of a match is a well-formed URL. */
  lemma MatchIsUrl(t: string, i: nat, p: UrlPattern)
    requires i <= |t| && UrlMatchAt(t, i, p) != -1
    ensures IsUrl(t[i..UrlMatchAt(t, i, p)], p)
  {
    var e := UrlMatchAt(t, i, p);
    var u := t[i..e];
    UrlMatchAtCases(t, i, p);
    if StartsWith(t[i..], "https://") && i + 8 < |t| && !Stops(p, t[i + 8]) {
      assert e > i + 8;
      assert u[..8] == t[i..][..8];
    } else {
      assert e > i + 7;
      assert u[..7] == t[i..][..7];
    }
  }

  /** The two ways a match can start. */
  lemma UrlMatchAtCases(t: string, i: nat, p: UrlPattern)
    requires i <= |t|
    ensures var e := UrlMatchAt(t, i, p);
      if StartsWith(t[i..], "https://") && i + 8 < |t| && !Stops(p, t[i + 8]) then e == RunEnd(t, i + 8, p)
      else if StartsWith(t[i..], "http://") && i + 7 < |t| && !Stops(p, t[i + 7]) then e == RunEnd(t, i + 7, p)
      else e == -1
  {
  }

  /** A scan that finds a URL implies the text mentions `http`. */
  lemma UrlsMentionHttp(t: string, p: UrlPattern)
    requires FindUrls(t, p) != []
    ensures Contains(t, "http")
  {
    ScanFromSound(t, 0, p);
    var u := FindUrls(t, p)[0];
    assert u in FindUrls(t, p);
    assert u[..4] == "http";
    ContainsSlice(u, 0, 4);
    ContainsTransitive(t, u, "http");
  }

  /** Index of the first URL of `urls` that does not occur in `code`, or
      `|urls|` when all of them do. */
  function FirstMissing(urls: seq<string>, code: string): (k: nat)
    ensures k <= |urls|
    ensures forall j :: 0 <= j < k ==> Contains(code, urls[j])
    ensures k < |urls| ==> !Contains(code, urls[k])
  {
    if urls == [] then 0
    else if !Contains(code, urls[0]) then 0
    else 1 + FirstMissing(urls[1..], code)
  }
}
