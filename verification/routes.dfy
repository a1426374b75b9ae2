/**
 Routing rules and the listing entries derived from them, one at a time: which
 rules are listed, and how an entry's `path`, `url` and `name` are computed from
 a rule (pages/index.tsx, lines 5-9 and 29-35).
 */
module Routes {
  import opened Text

  /** One `{source, destination}` rule of the `rewrites` or `redirects` list. */
  datatype Route = Route(source: String, destination: String)

  /** One listing entry; `path` identifies it. */
  datatype Bot = Bot(path: String, url: String, name: String)

  /** The placeholder segment that marks a wildcard route. */
  const MatchParam: String := ":match"

  /** The trailing wildcard segment stripped from destinations. */
  const MatchSuffix: String := "/:match*"

  /** The root path, which is never listed. */
  const Root: String := "/"

  /** A rule is listed unless its source is the root or holds a placeholder. */
  predicate Listed(route: Route)
    ensures Listed(route) <==>
      route.source != Root && forall i :: !OccursAt(route.source, MatchParam, i)
  {
    route.source != Root && !Includes(route.source, MatchParam)
  }

  /** The link target: the destination without one trailing `/:match*`. */
  function Url(destination: String): (url: String)
    ensures EndsWith(destination, MatchSuffix) ==> url + MatchSuffix == destination
    ensures !EndsWith(destination, MatchSuffix) ==> url == destination
  {
    StripSuffix(destination, MatchSuffix)
  }

  /** The display name, composed exactly as the page does:
      `path.substring(1).charAt(0).toUpperCase() + path.substring(2)`. In
      closed form it is the character after the leading one, upper-cased, then
      the rest of the path; it is empty when the path has fewer than two
      characters. */
  function Name(path: String): (name: String)
    ensures |path| >= 2 ==> name == [UpperChar(path[1])] + path[2..]
    ensures |path| < 2 ==> name == []
  {
    UpperCase(CharAt(Substring(path, 1), 0)) + Substring(path, 2)
  }

  /** The entry a listed rule contributes. */
  function ToBot(route: Route): (b: Bot)
    ensures b.path == route.source
    ensures EndsWith(route.destination, MatchSuffix) ==> b.url + MatchSuffix == route.destination
    ensures !EndsWith(route.destination, MatchSuffix) ==> b.url == route.destination
    ensures |route.source| >= 2 ==> b.name == [UpperChar(route.source[1])] + route.source[2..]
    ensures |route.source| < 2 ==> b.name == []
  {
    Bot(route.source, Url(route.destination), Name(route.source))
  }

  /** Only one trailing `/:match*` is removed: a destination ending in two of
      them keeps one, so a link target may itself end with `/:match*`. */
  lemma UrlStripsOnce(prefix: String)
    ensures Url(prefix + MatchSuffix + MatchSuffix) == prefix + MatchSuffix
    ensures EndsWith(Url(prefix + MatchSuffix + MatchSuffix), MatchSuffix)
  {
  }
}
