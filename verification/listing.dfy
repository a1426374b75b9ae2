/**
 The route-to-listing transform of the home page's static props
 (pages/index.tsx, lines 15-49): concatenate the rewrite rules and then the
 redirect rules, keep the listed ones, turn each into an entry, let the first
 entry per path win through a `Map`, and sort the map's values by name.
 */
module Listing {
  import opened Text
  import opened Routes
  import opened OrderedMap
  import opened Sorting

  /** Rule `i` is listed and no earlier rule has the same source. Whether a rule
      is listed depends on its source alone, so this is the first listed rule
      for that source. */
  ghost predicate FirstListed(routes: seq<Route>, i: int) {
    && 0 <= i < |routes|
    && Listed(routes[i])
    && forall j :: 0 <= j < i ==> routes[j].source != routes[i].source
  }

  /** The sources of all listed rules. */
  ghost function ListedSources(routes: seq<Route>): set<String> {
    set i | 0 <= i < |routes| && Listed(routes[i]) :: routes[i].source
  }

  /** The rules in the order the page visits them: rewrites, then redirects. */
  function AllRoutes(rewrites: seq<Route>, redirects: seq<Route>): (all: seq<Route>)
    ensures |all| == |rewrites| + |redirects|
    ensures forall i :: 0 <= i < |rewrites| ==> all[i] == rewrites[i]
    ensures forall i :: 0 <= i < |redirects| ==> all[|rewrites| + i] == redirects[i]
  {
    rewrites + redirects
  }

  /** The body of the `forEach` callback: a listed rule whose path is not yet a
      key is added; anything else leaves the map as it was. */
  function Visit(m: OrderedMap<Bot>, route: Route): (r: OrderedMap<Bot>)
    ensures Valid(m) ==> Valid(r)
    ensures r.entries.Keys == m.entries.Keys + (if Listed(route) then {route.source} else {})
    ensures forall k :: k in m.entries ==> r.entries[k] == m.entries[k]
    ensures Listed(route) && !Has(m, route.source) ==>
      r.keys == m.keys + [route.source] && r.entries[route.source] == ToBot(route)
    ensures !Listed(route) || Has(m, route.source) ==> r == m
  {
    if Listed(route) && !Has(m, route.source) then Set(m, route.source, ToBot(route))
    else m
  }

  /** Every key of `m` holds the entry of the first listed rule with that
      source. */
  ghost predicate FirstWins(routes: seq<Route>, m: OrderedMap<Bot>) {
    forall k :: k in m.entries ==>
      exists i :: FirstListed(routes, i) && routes[i].source == k && m.entries[k] == ToBot(routes[i])
  }

  /** The map after visiting `routes` in order, starting from an empty map. Its
      keys are exactly the listed sources, and each key holds the entry of the
      first listed rule with that source. */
  function Collect(routes: seq<Route>): (m: OrderedMap<Bot>)
    ensures Valid(m)
    ensures m.entries.Keys == ListedSources(routes)
    ensures FirstWins(routes, m)
    decreases |routes|
  {
    if |routes| == 0 then
      Empty()
    else
      var init := routes[..|routes| - 1];
      var last := routes[|routes| - 1];
      var prior := Collect(init);
      VisitStep(init, last, prior);
      assert routes == init + [last];
      Visit(prior, last)
  }

  /** One visit extends the listed sources by the rule's source when it is
      listed, and keeps the first rule's entry for every key. */
  lemma VisitStep(init: seq<Route>, last: Route, prior: OrderedMap<Bot>)
    requires Valid(prior)
    requires prior.entries.Keys == ListedSources(init)
    requires FirstWins(init, prior)
    ensures Valid(Visit(prior, last))
    ensures Visit(prior, last).entries.Keys == ListedSources(init + [last])
    ensures FirstWins(init + [last], Visit(prior, last))
  {
    var routes := init + [last];
    var m := Visit(prior, last);
    ListedSourcesAppend(init, last);
    forall k | k in m.entries
      ensures exists i :: FirstListed(routes, i) && routes[i].source == k && m.entries[k] == ToBot(routes[i])
    {
      if k in prior.entries {
        var i :| FirstListed(init, i) && init[i].source == k && prior.entries[k] == ToBot(init[i]);
        assert routes[i] == init[i];
        assert FirstListed(routes, i);
      } else {
        NewSourceIsFirst(init, last);
      }
    }
  }

  /** Appending a rule adds its source to the listed sources when it is
      listed. */
  lemma ListedSourcesAppend(init: seq<Route>, last: Route)
    ensures ListedSources(init + [last]) ==
      ListedSources(init) + (if Listed(last) then {last.source} else {})
  {
    var routes := init + [last];
    assert forall i :: 0 <= i < |init| ==> routes[i] == init[i];
    assert routes[|init|] == last;
  }

  /** A listed rule whose source no earlier rule lists is the first listed
      rule for it. */
  lemma NewSourceIsFirst(init: seq<Route>, last: Route)
    requires Listed(last) && last.source !in ListedSources(init)
    ensures FirstListed(init + [last], |init|)
  {
    var routes := init + [last];
    forall j | 0 <= j < |init|
      ensures routes[j].source != last.source
    {
      assert routes[j] == init[j];
    }
  }

  /** Two first-listed indices with the same source are the same index. */
  lemma FirstListedUnique(routes: seq<Route>, i: int, j: int)
    requires FirstListed(routes, i) && FirstListed(routes, j)
    requires routes[i].source == routes[j].source
    ensures i == j
  {
  }

  /** The listing the page renders: `Array.from(botMap.values())` sorted by
      name. It holds one entry per listed source, that entry comes from the
      first listed rule with the source, and the entries are sorted. */
  function Bots(rewrites: seq<Route>, redirects: seq<Route>): (bots: seq<Bot>)
    ensures forall b :: b in bots ==> b.path != Root && !Includes(b.path, MatchParam)
    ensures PathsDistinct(bots)
    ensures SortedByName(bots)
    ensures forall b :: b in bots ==>
      exists i :: FirstListed(AllRoutes(rewrites, redirects), i) && b == ToBot(AllRoutes(rewrites, redirects)[i])
    ensures forall i :: FirstListed(AllRoutes(rewrites, redirects), i) ==>
      ToBot(AllRoutes(rewrites, redirects)[i]) in bots
    ensures |bots| == |ListedSources(AllRoutes(rewrites, redirects))|
  {
    var routes := AllRoutes(rewrites, redirects);
    var m := Collect(routes);
    ValuesPathsDistinct(routes);
    ValuesComplete(routes);
    SizeMatchesOrder(m);
    SortByName(Values(m))
  }

  /** The map's values have distinct paths: each value's path is its key. */
  lemma ValuesPathsDistinct(routes: seq<Route>)
    ensures PathsDistinct(Values(Collect(routes)))
  {
  }

  /** The map's values include the entry of every first listed rule. */
  lemma ValuesComplete(routes: seq<Route>)
    ensures forall i :: FirstListed(routes, i) ==> ToBot(routes[i]) in Values(Collect(routes))
  {
    var m := Collect(routes);
    var values := Values(m);
    forall i | FirstListed(routes, i)
      ensures ToBot(routes[i]) in values
    {
      var k := routes[i].source;
      assert k in ListedSources(routes);
      var w :| FirstListed(routes, w) && routes[w].source == k && m.entries[k] == ToBot(routes[w]);
      FirstListedUnique(routes, i, w);
      var p :| 0 <= p < |m.keys| && m.keys[p] == k;
      assert values[p] == ToBot(routes[i]);
    }
  }

  /** A rewrite beats every redirect, and every later rewrite, with the same
      source: the one entry for that path is the first such rewrite's. */
  lemma RewriteWins(rewrites: seq<Route>, redirects: seq<Route>, i: int)
    requires FirstListed(rewrites, i)
    ensures ToBot(rewrites[i]) in Bots(rewrites, redirects)
    ensures forall b :: b in Bots(rewrites, redirects) && b.path == rewrites[i].source ==> b == ToBot(rewrites[i])
  {
  }

  /** A string is the path of a listed entry exactly when some listed rule has
      it as its source. */
  lemma PathListedIff(rewrites: seq<Route>, redirects: seq<Route>, p: String)
    ensures (exists b :: b in Bots(rewrites, redirects) && b.path == p) <==>
      (exists i :: 0 <= i < |AllRoutes(rewrites, redirects)| &&
         Listed(AllRoutes(rewrites, redirects)[i]) && AllRoutes(rewrites, redirects)[i].source == p)
  {
    var routes := AllRoutes(rewrites, redirects);
    if i :| 0 <= i < |routes| && Listed(routes[i]) && routes[i].source == p {
      var first := FirstIndex(routes, i);
      assert ToBot(routes[first]) in Bots(rewrites, redirects);
    }
  }

  /** The earliest rule with the same source as rule `i`. */
  function FirstIndex(routes: seq<Route>, i: nat): (first: nat)
    requires i < |routes|
    ensures first <= i
    ensures routes[first].source == routes[i].source
    ensures forall j :: 0 <= j < first ==> routes[j].source != routes[i].source
  {
    if exists j :: 0 <= j < i && routes[j].source == routes[i].source then
      var j :| 0 <= j < i && routes[j].source == routes[i].source;
      FirstIndex(routes, j)
    else
      i
  }
}
