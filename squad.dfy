/**
 * Squad assembly: pick the player cells of the squad page, turn each cell
 * with a player link into a player entry, and keep the first entry for
 * each name, in document order.
 */
module Squad {
  import opened Text
  import opened Web
  import opened Urls
  import opened PlayerText
  import opened Team

  /** The path fragment that identifies a player profile link. */
  const PlayerMarker := "/en/player/"

  /** The `src` and `data-src` attributes of an `<img>` element. */
  datatype Img = Img(src: Option<string>, dataSrc: Option<string>)

  /**
   * A player cell (an `li` or `div`): its anchors in document order and
   * its first `<img>` descendant, if any.
   */
  datatype Cell = Cell(anchors: seq<Anchor>, img: Option<Img>)

  /** An anchor of the squad page with its nearest `li`/`div` ancestor, if any. */
  datatype PageAnchor = PageAnchor(anchor: Anchor, parent: Option<Cell>)

  /**
   * The squad page: the cells whose class carries `squad-player` or
   * `player-card`, and every anchor of the page in document order.
   */
  datatype SquadPage = SquadPage(markerCells: seq<Cell>, anchors: seq<PageAnchor>)

  /** One squad entry; `image` is `None` where the scraper yields a null image. */
  datatype Player = Player(name: string, position: Position, number: string, image: Option<string>, profileUrl: string)

  datatype SquadResult = SquadResult(team: string, players: seq<Player>)

  /**
   * The image of a cell: `""` without an `<img>`; otherwise a non-empty
   * `src`, else `data-src` (absent gives `None`); a value starting with
   * `/` gets the site origin in front.
   */
  function ImageUrl(img: Option<Img>): (r: Option<string>)
    ensures img.None? ==> r == Some("")
    ensures r.None? <==>
      img.Some? && (img.value.src.None? || img.value.src.value == "") && img.value.dataSrc.None?
    ensures r.Some? ==> !StartsWith(r.value, "/")
    ensures img.Some? && r.Some? ==>
      var raw := if img.value.src.Some? && img.value.src.value != "" then img.value.src.value
                 else img.value.dataSrc.value;
      && EndsWith(r.value, raw) && (r.value == raw <==> !StartsWith(raw, "/"))
      && (StartsWith(raw, "/") ==> r.value == Origin + raw)
  {
    var raw :=
      if img.None? then Some("")
      else if img.value.src.Some? && img.value.src.value != "" then img.value.src
      else img.value.dataSrc;
    if raw.Some? && raw.value != "" && StartsWith(raw.value, "/") then
      var r := Origin + raw.value;
      assert r[0] == 'h';
      Some(r)
    else raw
  }

  /**
   * The cells to scan: the class-marked cells, or, when there are none,
   * the `li`/`div` parent of every player link that has one.
   */
  function CandidateCells(page: SquadPage): (r: seq<Cell>)
    ensures |page.markerCells| > 0 ==> r == page.markerCells
    ensures |page.markerCells| == 0 ==> r == LinkParents(page.anchors)
  {
    if |page.markerCells| > 0 then page.markerCells else LinkParents(page.anchors)
  }

  /** The parents of the player links among `anchors`, in document order. */
  function LinkParents(anchors: seq<PageAnchor>): (r: seq<Cell>)
    ensures |r| <= |anchors|
    ensures forall c | c in r :: exists i | 0 <= i < |anchors| ::
      LinksTo(anchors[i].anchor, PlayerMarker) && anchors[i].parent == Some(c)
    ensures forall i | 0 <= i < |anchors| ::
      LinksTo(anchors[i].anchor, PlayerMarker) && anchors[i].parent.Some? ==> anchors[i].parent.value in r
  {
    if anchors == [] then []
    else
      var a := anchors[0];
      var tail := LinkParents(anchors[1..]);
      assert forall i | 1 <= i < |anchors| :: anchors[i] == anchors[1..][i - 1];
      if LinksTo(a.anchor, PlayerMarker) && a.parent.Some? then [a.parent.value] + tail else tail
  }

  /**
   * The entry a cell contributes before de-duplication: none without a
   * player link or with empty link text; otherwise the parsed text, the
   * image and the absolute profile URL.
   */
  function CellEntry(cell: Cell): (r: Option<Player>)
    ensures r.Some? <==>
      FirstAnchor(cell.anchors, PlayerMarker).Some? && FirstAnchor(cell.anchors, PlayerMarker).value.text != ""
    ensures r.Some? ==>
      var link := FirstAnchor(cell.anchors, PlayerMarker).value;
      && Parsed(r.value.name, r.value.position, r.value.number) == ParseText(link.text)
      && r.value.image == ImageUrl(cell.img)
      && r.value.profileUrl == Absolutize(link.href.value)
  {
    match FirstAnchor(cell.anchors, PlayerMarker)
    case None => None
    case Some(link) =>
      if link.text == "" then None
      else
        var p := ParseText(link.text);
        Some(Player(p.name, p.position, p.number, ImageUrl(cell.img), Absolutize(link.href.value)))
  }

  /** The entries of the accepted cells, in document order. */
  function Accepted(cells: seq<Cell>): seq<Player> {
    if cells == [] then []
    else
      var init := Accepted(cells[..|cells| - 1]);
      match CellEntry(cells[|cells| - 1])
      case None => init
      case Some(p) => init + [p]
  }

  /** The set of names occurring in `ps`. */
  function Names(ps: seq<Player>): (r: set<string>)
    ensures forall k | 0 <= k < |ps| :: ps[k].name in r
    ensures forall n | n in r :: exists k | 0 <= k < |ps| :: ps[k].name == n
  {
    if ps == [] then {}
    else
      var init := ps[..|ps| - 1];
      var r := Names(init) + {ps[|ps| - 1].name};
      assert forall k | 0 <= k < |init| :: init[k] == ps[k];
      r
  }

  /** `any(p['name'] == name for p in squad)`. */
  predicate HasName(squad: seq<Player>, name: string) {
    exists i | 0 <= i < |squad| :: squad[i].name == name
  }

  predicate DistinctNames(ps: seq<Player>) {
    forall i, j | 0 <= i < j < |ps| :: ps[i].name != ps[j].name
  }

  /**
   * First-wins de-duplication by name: an entry is appended only when
   * no entry kept so far has its name.
   */
  function Dedup(ps: seq<Player>): (r: seq<Player>)
    ensures DistinctNames(r)
    ensures Names(r) == Names(ps)
    ensures |r| <= |ps|
  {
    if ps == [] then []
    else
      var init := ps[..|ps| - 1];
      var p := ps[|ps| - 1];
      var d := Dedup(init);
      assert Names(ps) == Names(init) + {p.name};
      if HasName(d, p.name) then d
      else
        AppendNew(d, p);
        d + [p]
  }

  /** Appending an entry with a new name keeps the names distinct and adds that name. */
  lemma AppendNew(ps: seq<Player>, p: Player)
    requires DistinctNames(ps) && !HasName(ps, p.name)
    ensures DistinctNames(ps + [p])
    ensures Names(ps + [p]) == Names(ps) + {p.name}
  {
    var r := ps + [p];
    assert r[..|ps|] == ps;
    assert forall i | 0 <= i < |ps| :: r[i] == ps[i];
  }

  /** The squad built from `cells`, as the scraper builds it. */
  function Collect(cells: seq<Cell>): seq<Player> {
    Dedup(Accepted(cells))
  }

  /** The index of the first entry of `ps` named `n`. */
  function FirstIndex(ps: seq<Player>, n: string): (r: nat)
    requires n in Names(ps)
    ensures r < |ps| && ps[r].name == n
    ensures forall k | 0 <= k < r :: ps[k].name != n
  {
    var init := ps[..|ps| - 1];
    assert forall k | 0 <= k < |init| :: init[k] == ps[k];
    assert Names(ps) == Names(init) + {ps[|ps| - 1].name};
    if n in Names(init) then FirstIndex(init, n) else |ps| - 1
  }

  /**
   * The building loop of the scraper: each cell with a player link and
   * non-empty link text is parsed, and its entry appended unless the
   * squad already has that name.
   */
  method BuildSquad(cells: seq<Cell>) returns (squad: seq<Player>)
    ensures squad == Collect(cells)
  {
    squad := [];
    for i := 0 to |cells|
      invariant squad == Collect(cells[..i])
    {
      assert cells[..i + 1][..i] == cells[..i];
      var cell := cells[i];
      var link := FirstAnchor(cell.anchors, PlayerMarker);
      if link.None? {
        continue;
      }
      var content := link.value.text;
      if content == "" {
        continue;
      }
      var image := ImageUrl(cell.img);
      var name, position, number := ParsePlayerText(content);
      if !HasName(squad, name) {
        var profile := Absolutize(link.value.href.value);
        squad := squad + [Player(name, position, number, image, profile)];
      }
      assert Accepted(cells[..i + 1]) == Accepted(cells[..i]) + [Player(name, position, number, image, Absolutize(link.value.href.value))];
    }
    assert cells[..|cells|] == cells;
  }

  /**
   * The squad search: resolve the team, fetch its squad page through
   * `fetchSquad` and collect the players. `None` when the team is not
   * found, the page cannot be fetched, or no cell yields a player.
   */
  function Scrape(teamName: string, search: string -> Fetch<seq<Anchor>>,
                  fetchSquad: string -> Fetch<SquadPage>): (r: Option<SquadResult>)
    ensures r.Some? <==>
      && ResolveTeam(teamName, search).Some?
      && fetchSquad(ResolveTeam(teamName, search).value.squadUrl).Fetched?
      && Accepted(CandidateCells(fetchSquad(ResolveTeam(teamName, search).value.squadUrl).page)) != []
    ensures r.Some? ==>
      && r.value.team == ResolveTeam(teamName, search).value.officialName
      && r.value.players == Collect(CandidateCells(fetchSquad(ResolveTeam(teamName, search).value.squadUrl).page))
      && r.value.players != [] && DistinctNames(r.value.players)
  {
    match ResolveTeam(teamName, search)
    case None => None
    case Some(team) =>
      match fetchSquad(team.squadUrl)
      case Failed => None
      case Fetched(page) =>
        var accepted := Accepted(CandidateCells(page));
        var squad := Dedup(accepted);
        assert squad == [] <==> accepted == [] by {
          if accepted != [] {
            assert accepted[0].name in Names(squad);
          }
        }
        if squad == [] then None else Some(SquadResult(team.officialName, squad))
  }

  /** `scrape_squad` with its fetches given as `search` and `fetchSquad`. */
  method ScrapeSquad(teamName: string, search: string -> Fetch<seq<Anchor>>,
                     fetchSquad: string -> Fetch<SquadPage>) returns (r: Option<SquadResult>)
    ensures r == Scrape(teamName, search, fetchSquad)
  {
    var found := ResolveTeam(teamName, search);
    if found.None? {
      return None;
    }
    var response := fetchSquad(found.value.squadUrl);
    if response.Failed? {
      return None;
    }
    var squad := BuildSquad(CandidateCells(response.page));
    if squad != [] {
      r := Some(SquadResult(found.value.officialName, squad));
    } else {
      r := None;
    }
  }
}
