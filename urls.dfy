/**
 * The URL strings the scraper derives: the search URL for a team name,
 * absolute links, the squad page of a team and the stats page of a player.
 */
module Urls {
  import opened Text

  const Origin := "https://onefootball.com"
  const SearchBase := "https://onefootball.com/en/search?q="
  const SquadSuffix := "/squad"
  const StatsSuffix := "/stats"

  /** The search URL: the team name, spaces turned into `+`, after `?q=`. */
  function SearchUrl(teamName: string): (r: string)
    ensures StartsWith(r, SearchBase) && |r| == |SearchBase| + |teamName|
    ensures ' ' !in r
    ensures forall i | 0 <= i < |teamName| ::
      r[|SearchBase| + i] == (if teamName[i] == ' ' then '+' else teamName[i])
  {
    var q := ReplaceChar(teamName, ' ', '+');
    var r := SearchBase + q;
    assert forall i | 0 <= i < |q| :: r[|SearchBase| + i] == q[i];
    r
  }

  /** A link made absolute: anything not starting with `http` is taken as a site path. */
  function Absolutize(href: string): (r: string)
    ensures StartsWith(r, "http") && EndsWith(r, href)
    ensures r == href <==> StartsWith(href, "http")
    ensures !StartsWith(href, "http") ==> r == Origin + href
  {
    if StartsWith(href, "http") then href else Origin + href
  }

  /**
   * The squad page of a team page, as written: a URL already ending in
   * `/squad` is kept, anything else loses its trailing slashes and gains
   * `/squad`. A URL ending in `/squad/` therefore becomes `.../squad/squad`.
   */
  function SquadUrlAsWritten(teamUrl: string): (r: string)
    ensures EndsWith(r, SquadSuffix)
    ensures EndsWith(teamUrl, SquadSuffix) ==> r == teamUrl
    ensures !EndsWith(teamUrl, SquadSuffix) ==>
      var base := r[..|r| - |SquadSuffix|];
      && StartsWith(teamUrl, base)
      && (base == [] || base[|base| - 1] != '/')
      && forall i | |base| <= i < |teamUrl| :: teamUrl[i] == '/'
    ensures StartsWith(teamUrl, "http") ==> StartsWith(r, "http")
  {
    if EndsWith(teamUrl, SquadSuffix) then teamUrl
    else
      var base := RStrip(teamUrl, '/');
      assert (base + SquadSuffix)[..|base|] == base;
      HttpPrefixSurvivesRStrip(teamUrl);
      base + SquadSuffix
  }

  /** Dropping trailing slashes keeps an `http` prefix. */
  lemma HttpPrefixSurvivesRStrip(u: string)
    ensures StartsWith(u, "http") ==> StartsWith(RStrip(u, '/'), "http")
  {
    if StartsWith(u, "http") {
      var base := RStrip(u, '/');
      assert u[3] == 'p';
      assert |base| >= 4;
      assert base[..4] == u[..4];
    }
  }

  /**
   * The squad page of a team page, with trailing slashes removed before
   * the suffix test, so that `/squad` is never added twice.
   */
  function SquadUrl(teamUrl: string): (r: string)
    ensures EndsWith(r, SquadSuffix)
    ensures EndsWith(teamUrl, SquadSuffix) ==> r == teamUrl
    ensures StartsWith(teamUrl, "http") ==> StartsWith(r, "http")
    ensures EndsWith(RStrip(teamUrl, '/'), SquadSuffix) ==> r == RStrip(teamUrl, '/')
    ensures !EndsWith(RStrip(teamUrl, '/'), SquadSuffix) ==>
      var base := r[..|r| - |SquadSuffix|];
      && StartsWith(teamUrl, base)
      && (base == [] || base[|base| - 1] != '/')
      && forall i | |base| <= i < |teamUrl| :: teamUrl[i] == '/'
  {
    var base := RStrip(teamUrl, '/');
    HttpPrefixSurvivesRStrip(teamUrl);
    if EndsWith(base, SquadSuffix) then base
    else
      assert (base + SquadSuffix)[..|base|] == base;
      base + SquadSuffix
  }

  /** The stats page of a player: the profile URL without trailing slashes, then `/stats`. */
  function StatsUrl(profileUrl: string): (r: string)
    ensures EndsWith(r, StatsSuffix)
    ensures var base := r[..|r| - |StatsSuffix|];
      && StartsWith(profileUrl, base)
      && (base == [] || base[|base| - 1] != '/')
      && forall i | |base| <= i < |profileUrl| :: profileUrl[i] == '/'
  {
    var base := RStrip(profileUrl, '/');
    assert (base + StatsSuffix)[..|base|] == base;
    base + StatsSuffix
  }

  lemma RStripSlash(u: string)
    ensures RStrip(u + "/", '/') == RStrip(u, '/')
  {
    assert (u + "/")[..|u|] == u;
  }

  /** Deriving the corrected squad page is idempotent. */
  lemma SquadUrlIdempotent(teamUrl: string)
    ensures SquadUrl(SquadUrl(teamUrl)) == SquadUrl(teamUrl)
  {
  }

  /** Deriving the squad page as written is idempotent too: its result already ends in `/squad`. */
  lemma SquadUrlAsWrittenIdempotent(teamUrl: string)
    ensures SquadUrlAsWritten(SquadUrlAsWritten(teamUrl)) == SquadUrlAsWritten(teamUrl)
  {
  }

  /** A trailing slash on the team page does not change its corrected squad page. */
  lemma {:induction false} SquadUrlIgnoresTrailingSlash(teamUrl: string)
    ensures SquadUrl(teamUrl + "/") == SquadUrl(teamUrl)
  {
    RStripSlash(teamUrl);
  }

  /** A trailing slash on the profile URL does not change its stats page. */
  lemma {:induction false} StatsUrlIgnoresTrailingSlash(profileUrl: string)
    ensures StatsUrl(profileUrl + "/") == StatsUrl(profileUrl)
  {
    RStripSlash(profileUrl);
  }

  /** The two squad derivations agree except on URLs ending in `/squad` followed by slashes. */
  lemma {:induction false} SquadUrlAgreement(teamUrl: string)
    requires EndsWith(teamUrl, SquadSuffix) || !EndsWith(RStrip(teamUrl, '/'), SquadSuffix)
    ensures SquadUrlAsWritten(teamUrl) == SquadUrl(teamUrl)
  {
    if EndsWith(teamUrl, SquadSuffix) {
      assert teamUrl[|teamUrl| - 1] == 'd';
    }
  }

  /** As written, a squad URL that ends in `/squad/` has the suffix doubled. */
  lemma {:induction false} SquadSuffixDoubled(teamUrl: string)
    requires EndsWith(teamUrl, SquadSuffix)
    ensures SquadUrlAsWritten(teamUrl + "/") == teamUrl + SquadSuffix
    ensures SquadUrl(teamUrl + "/") == teamUrl
  {
    assert !EndsWith(teamUrl + "/", SquadSuffix) by {
      assert (teamUrl + "/")[|teamUrl|] == '/';
    }
    RStripSlash(teamUrl);
    assert teamUrl[|teamUrl| - 1] == 'd';
  }
}
