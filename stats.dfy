/**
 * Player details: fetch the player's stats page and keep the label/value
 * pairs of its stat list items that pass a noise filter; when fewer than
 * three survive, look up a fixed list of keywords instead.
 */
module Stats {
  import opened Text
  import opened Web
  import opened Urls

  /** A stat list item: the stripped texts of its `<span>` elements, in order. */
  type Item = seq<string>

  /**
   * The stats page: the `li` items of each `performance-stats`/`stats-group`
   * container, the `li.stat-item` elements, and for a keyword the text of
   * the first `span`/`div` after the first text containing it.
   */
  datatype StatsPage = StatsPage(containers: seq<seq<Item>>, statItems: seq<Item>, following: map<string, string>)

  const JunkWords := ["instagram", "facebook", "app store", "google play"]
  const Keywords := ["Goals", "Assists", "Appearances", "Pass accuracy", "Tackles", "Yellow cards"]

  /** The number of stats below which the keyword fallback runs. */
  const FallbackThreshold := 3

  /** `s` contains one of `words`. */
  predicate MentionsAny(s: string, words: seq<string>) {
    words != [] && (Contains(s, words[0]) || MentionsAny(s, words[1..]))
  }

  /** The lower-cased label mentions a social network or an app store. */
  predicate IsJunk(key: string) {
    MentionsAny(Lower(key), JunkWords)
  }

  /** The noise filter on a label/value pair. */
  predicate Keep(key: string, val: string) {
    key != "" && val != "" && |key| < 40 && |val| < 20 && !IsJunk(key)
  }

  /** The item has at least two spans and its first two pass the filter. */
  predicate Accepts(item: Item) {
    |item| >= 2 && Keep(item[0], item[1])
  }

  /** A value the keyword fallback accepts. */
  predicate UsableFallback(val: string) {
    val != "" && |val| < 10
  }

  /** Item `i` is the last accepted item labelled `key`. */
  predicate LastAccepted(items: seq<Item>, i: int, key: string) {
    && 0 <= i < |items| && Accepts(items[i]) && items[i][0] == key
    && forall j | i < j < |items| :: !(Accepts(items[j]) && items[j][0] == key)
  }

  /** The items of all containers, container after container. */
  function Flatten(containers: seq<seq<Item>>): seq<Item> {
    if containers == [] then []
    else Flatten(containers[..|containers| - 1]) + containers[|containers| - 1]
  }

  /** The items to read: those of the containers, or the `li.stat-item` elements when there is no container. */
  function StatItems(page: StatsPage): seq<Item> {
    if |page.containers| == 0 then page.statItems else Flatten(page.containers)
  }

  /**
   * The main loop's mapping: each accepted item stores its value under its
   * label, a later item overwriting an earlier one with the same label.
   */
  function MainStats(items: seq<Item>): (r: map<string, string>)
    ensures forall k | k in r :: Keep(k, r[k])
    ensures forall i | 0 <= i < |items| && Accepts(items[i]) :: items[i][0] in r
  {
    if items == [] then map[]
    else
      var init := items[..|items| - 1];
      var item := items[|items| - 1];
      var m := MainStats(init);
      assert forall j | 0 <= j < |init| :: init[j] == items[j];
      if Accepts(item) then m[item[0] := item[1]] else m
  }

  /** Every stored value is that of the last accepted item with its label. */
  lemma {:induction false} MainStatsLastWins(items: seq<Item>)
    ensures forall k | k in MainStats(items) ::
      exists i :: LastAccepted(items, i, k) && MainStats(items)[k] == items[i][1]
  {
    if items != [] {
      var init := items[..|items| - 1];
      var item := items[|items| - 1];
      var m := MainStats(init);
      var r := MainStats(items);
      MainStatsLastWins(init);
      forall k | k in r
        ensures exists i :: LastAccepted(items, i, k) && r[k] == items[i][1]
      {
        if Accepts(item) && k == item[0] {
          assert LastAccepted(items, |items| - 1, k);
        } else {
          var i :| LastAccepted(init, i, k) && m[k] == init[i][1];
          assert forall j | 0 <= j < |init| :: init[j] == items[j];
          assert LastAccepted(items, i, k);
        }
      }
    }
  }

  /** Keyword `kw` has a usable value on the page. */
  predicate HasFallback(following: map<string, string>, kw: string) {
    kw in following && UsableFallback(following[kw])
  }

  /**
   * The keyword fallback over `kws`: a keyword with a usable value on the
   * page stores it, overwriting; every other entry of `stats` is kept.
   */
  function Fallback(stats: map<string, string>, kws: seq<string>, following: map<string, string>): (r: map<string, string>)
    ensures stats.Keys <= r.Keys
    ensures forall k | k in r :: k in stats || k in kws
    ensures forall k | k in kws && HasFallback(following, k) :: k in r && r[k] == following[k]
    ensures forall k | k in r && !(k in kws && HasFallback(following, k)) :: k in stats && r[k] == stats[k]
  {
    if kws == [] then stats
    else
      var f := Fallback(stats, kws[..|kws| - 1], following);
      var kw := kws[|kws| - 1];
      assert forall k | k in kws :: k in kws[..|kws| - 1] || k == kw;
      if HasFallback(following, kw) then f[kw := following[kw]] else f
  }

  /**
   * The details of a player: nothing when the stats page cannot be
   * fetched; otherwise the main mapping, completed by the keyword
   * fallback when it holds fewer than three entries.
   */
  function Details(profileUrl: string, fetch: string -> Fetch<StatsPage>): (r: map<string, string>)
    ensures fetch(StatsUrl(profileUrl)).Failed? ==> r == map[]
    ensures fetch(StatsUrl(profileUrl)).Fetched? ==>
      var page := fetch(StatsUrl(profileUrl)).page;
      var main := MainStats(StatItems(page));
      && main.Keys <= r.Keys
      && (|main| >= FallbackThreshold ==> r == main)
      && (|main| < FallbackThreshold ==> r == Fallback(main, Keywords, page.following))
      && (|main| < FallbackThreshold ==>
            forall k | k in Keywords && HasFallback(page.following, k) :: k in r && r[k] == page.following[k])
    ensures forall k | k in r :: Keep(k, r[k]) || (k in Keywords && UsableFallback(r[k]))
  {
    match fetch(StatsUrl(profileUrl))
    case Failed => map[]
    case Fetched(page) =>
      var main := MainStats(StatItems(page));
      if |main| < FallbackThreshold then Fallback(main, Keywords, page.following) else main
  }

  /** `get_player_details`, with the stats page fetched through `fetch`. */
  method GetPlayerDetails(profileUrl: string, fetch: string -> Fetch<StatsPage>) returns (stats: map<string, string>)
    ensures stats == Details(profileUrl, fetch)
  {
    var response := fetch(StatsUrl(profileUrl));
    if response.Failed? {
      return map[];
    }
    var page := response.page;
    var items := CollectItems(page);
    stats := FilterPairs(items);
    if |stats| < FallbackThreshold {
      stats := ApplyFallback(stats, Keywords, page.following);
    }
  }

  /** The stat items: the `li` elements of every container in turn, or the `li.stat-item` elements. */
  method CollectItems(page: StatsPage) returns (items: seq<Item>)
    ensures items == StatItems(page)
  {
    if |page.containers| == 0 {
      return page.statItems;
    }
    items := [];
    for c := 0 to |page.containers|
      invariant items == Flatten(page.containers[..c])
    {
      assert page.containers[..c + 1][..c] == page.containers[..c];
      items := items + page.containers[c];
    }
    assert page.containers[..|page.containers|] == page.containers;
  }

  /** The main loop: store the first two span texts of every item that passes the filter. */
  method FilterPairs(items: seq<Item>) returns (stats: map<string, string>)
    ensures stats == MainStats(items)
  {
    stats := map[];
    for i := 0 to |items|
      invariant stats == MainStats(items[..i])
    {
      assert items[..i + 1][..i] == items[..i];
      var spans := items[i];
      if |spans| >= 2 {
        var key, val := spans[0], spans[1];
        if key != "" && val != "" && |key| < 40 && |val| < 20 {
          if !IsJunk(key) {
            stats := stats[key := val];
          }
        }
      }
    }
    assert items[..|items|] == items;
  }

  /** The keyword loop over `kws`: store every keyword's usable value, overwriting. */
  method ApplyFallback(main: map<string, string>, kws: seq<string>, following: map<string, string>)
    returns (stats: map<string, string>)
    ensures stats == Fallback(main, kws, following)
  {
    stats := main;
    for k := 0 to |kws|
      invariant stats == Fallback(main, kws[..k], following)
    {
      assert kws[..k + 1][..k] == kws[..k];
      var kw := kws[k];
      if kw in following {
        var val := following[kw];
        if val != "" && |val| < 10 {
          stats := stats[kw := val];
        }
      }
    }
    assert kws[..|kws|] == kws;
  }

  /** Of two accepted items with the same label, the later one's value is stored. */
  lemma LaterLabelWins(items: seq<Item>, key: string, first: string, second: string)
    requires Keep(key, first) && Keep(key, second)
    ensures MainStats(items + [[key, first], [key, second]])[key] == second
  {
    var all := items + [[key, first], [key, second]];
    assert all[..|all| - 1] == items + [[key, first]];
  }

  /** A label mentioning a social network is dropped whatever its case: `"Instagram"` is junk. */
  lemma JunkExample(items: seq<Item>)
    ensures IsJunk("Instagram") && !Keep("Instagram", "1")
    ensures "Instagram" !in MainStats(items)
  {
    var key := "Instagram";
    assert Lower(key) == JunkWords[0];
    assert StartsWith(Lower(key), JunkWords[0]);
  }
}
