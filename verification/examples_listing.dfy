/**
 Concrete listings, worked out from the general contracts of `Listing.Bots`.
 */
module ListingExamples {
  import opened Text
  import opened Routes
  import opened Listing

  /** No rules, no entries. */
  lemma EmptyConfig()
    ensures Bots([], []) == []
  {
    assert ListedSources([]) == {};
  }

  /** The root rule and wildcard rules are never listed. */
  lemma RootAndWildcardsSkipped()
    ensures Bots([Route("/", "https://home.example.com")],
                 [Route("/:match*", "https://any.example.com"), Route("/x/:match", "https://x.example.com")]) == []
  {
    var routes := AllRoutes([Route("/", "https://home.example.com")],
                            [Route("/:match*", "https://any.example.com"), Route("/x/:match", "https://x.example.com")]);
    assert OccursAt(routes[1].source, MatchParam, 1);
    assert OccursAt(routes[2].source, MatchParam, 3);
    assert ListedSources(routes) == {};
  }

  /** A wildcard destination becomes a plain link and the path a capitalised
      name. */
  lemma WildcardDestinationStripped()
    ensures Bots([Route("/foo", "https://foo.example.com/:match*")], []) ==
      [Bot("/foo", "https://foo.example.com", "Foo")]
  {
    var route := Route("/foo", "https://foo.example.com/:match*");
    assert Listed(route);
    SingleSourceListing([route], []);
    FooEntry();
  }

  /** When a rewrite and a redirect share a source, the rewrite's entry is the
      only one listed. */
  lemma RewriteBeatsRedirect()
    ensures Bots([Route("/bar", "https://rewrite.example.com")],
                 [Route("/bar", "https://redirect.example.com")]) ==
      [Bot("/bar", "https://rewrite.example.com", "Bar")]
  {
    var rewrite := Route("/bar", "https://rewrite.example.com");
    assert Listed(rewrite);
    SingleSourceListing([rewrite], [Route("/bar", "https://redirect.example.com")]);
    BarEntry();
  }

  /** The entry for the wildcard rule `/foo`. */
  lemma FooEntry()
    ensures ToBot(Route("/foo", "https://foo.example.com/:match*")) ==
      Bot("/foo", "https://foo.example.com", "Foo")
  {
    var d := "https://foo.example.com/:match*";
    assert EndsWith(d, MatchSuffix);
    assert d[..|d| - |MatchSuffix|] == "https://foo.example.com";
  }

  /** The entry for the plain rule `/bar`. */
  lemma BarEntry()
    ensures ToBot(Route("/bar", "https://rewrite.example.com")) ==
      Bot("/bar", "https://rewrite.example.com", "Bar")
  {
    var d := "https://rewrite.example.com";
    assert d[|d| - |MatchSuffix|..] != MatchSuffix;
  }

  /** Rules that all share one listed source give a one-entry listing: the
      first rule's entry. */
  lemma SingleSourceListing(rewrites: seq<Route>, redirects: seq<Route>)
    requires |AllRoutes(rewrites, redirects)| > 0 && Listed(AllRoutes(rewrites, redirects)[0])
    requires forall i :: 0 <= i < |AllRoutes(rewrites, redirects)| ==>
      AllRoutes(rewrites, redirects)[i].source == AllRoutes(rewrites, redirects)[0].source
    ensures Bots(rewrites, redirects) == [ToBot(AllRoutes(rewrites, redirects)[0])]
  {
    var routes := AllRoutes(rewrites, redirects);
    var bots := Bots(rewrites, redirects);
    assert ListedSources(routes) == {routes[0].source};
    assert |bots| == 1;
    assert FirstListed(routes, 0);
    assert ToBot(routes[0]) in bots;
  }
}
