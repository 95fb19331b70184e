/**
 * Team resolution: search the site for a team name and derive the squad
 * page from the first team link in the results.
 */
module Team {
  import opened Text
  import opened Web
  import opened Urls

  /** The path fragment that identifies a team page link. */
  const TeamMarker := "/en/team/"

  /** A resolved team: its squad page and the text of the link that named it. */
  datatype TeamMatch = TeamMatch(squadUrl: string, officialName: string)

  /**
   * Fetches the search results for `teamName` through `search` and takes
   * the first team link. A failed fetch or a page without a team link
   * gives `None`.
   */
  function ResolveTeam(teamName: string, search: string -> Fetch<seq<Anchor>>): (r: Option<TeamMatch>)
    ensures r.Some? <==>
      search(SearchUrl(teamName)).Fetched?
      && exists i | 0 <= i < |search(SearchUrl(teamName)).page| :: LinksTo(search(SearchUrl(teamName)).page[i], TeamMarker)
    ensures r.Some? ==> StartsWith(r.value.squadUrl, "http") && EndsWith(r.value.squadUrl, SquadSuffix)
    ensures r.Some? ==>
      var anchors := search(SearchUrl(teamName)).page;
      exists i | 0 <= i < |anchors| ::
        && LinksTo(anchors[i], TeamMarker)
        && (forall j | 0 <= j < i :: !LinksTo(anchors[j], TeamMarker))
        && r.value.officialName == anchors[i].text
        && r.value.squadUrl == SquadUrlAsWritten(Absolutize(anchors[i].href.value))
  {
    match search(SearchUrl(teamName))
    case Failed => None
    case Fetched(anchors) =>
      match FirstAnchor(anchors, TeamMarker)
      case None => None
      case Some(link) => Some(TeamMatch(SquadUrlAsWritten(Absolutize(link.href.value)), link.text))
  }
}
