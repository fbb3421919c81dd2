/** The route list of app/sitemap.ts: the site root, then one crafting-tree
    page per relation record that has edges. The environment value, the
    current date and `encodeURIComponent` are inputs. */
module Sitemap {
  import opened Wrappers
  import opened SeqUtil

  /** One record of the relation data; the sitemap reads only its name and
      whether its edge list is present and non-empty. */
  datatype Relation<E> = Relation(name: string, edges: Option<seq<E>>)

  /** A sitemap entry; `Date` is whatever the clock returned. */
  datatype Route<Date> = Route(url: string, lastModified: Date, changeFrequency: string, priority: real)

  const DefaultBaseUrl := "http://localhost:3000"
  const CraftingPath := "/crafting-tree?item="

  /** `process.env.NEXT_PUBLIC_SITE_URL || 'http://localhost:3000'`. */
  function BaseUrl(env: Option<string>): (url: string)
    ensures env.Some? && env.value != [] ==> url == env.value
    ensures env.None? || env.value == [] ==> url == DefaultBaseUrl
    ensures url != []
  {
    if env.Some? && env.value != [] then env.value else DefaultBaseUrl
  }

  /** `item.edges && item.edges.length > 0`. */
  predicate HasEdges<E>(r: Relation<E>) {
    r.edges.Some? && |r.edges.value| > 0
  }

  function HasEdgesOf<E>(): Relation<E> -> bool {
    r => HasEdges(r)
  }

  function RootRoute<Date>(baseUrl: string, now: Date): Route<Date> {
    Route(baseUrl, now, "daily", 1.0)
  }

  /** The crafting-tree page of one record. */
  function CraftingRoute<E, Date>(baseUrl: string, now: Date, enc: string -> string, r: Relation<E>): Route<Date> {
    Route(baseUrl + CraftingPath + enc(r.name), now, "weekly", 0.8)
  }

  function CraftingRouteOf<E, Date>(baseUrl: string, now: Date, enc: string -> string): Relation<E> -> Route<Date> {
    r => CraftingRoute(baseUrl, now, enc, r)
  }

  /** The `filter(...).map(...)` chain. */
  function CraftingRoutes<E, Date>(baseUrl: string, now: Date, enc: string -> string, relations: seq<Relation<E>>): (r: seq<Route<Date>>)
    ensures |r| == |Filter(HasEdgesOf(), relations)| <= |relations|
  {
    Map(CraftingRouteOf(baseUrl, now, enc), Filter(HasEdgesOf(), relations))
  }

  /** `sitemap()`. */
  function Routes<E, Date>(env: Option<string>, now: Date, enc: string -> string, relations: seq<Relation<E>>): (r: seq<Route<Date>>)
    ensures 1 <= |r| <= 1 + |relations|
    ensures r[0].url == BaseUrl(env) && r[0].url != []
  {
    [RootRoute(BaseUrl(env), now)] + CraftingRoutes(BaseUrl(env), now, enc, relations)
  }

  /** The first route is the site root, daily at priority 1.0, followed by
      one route per record with edges. */
  lemma RoutesShape<E, Date>(env: Option<string>, now: Date, enc: string -> string, relations: seq<Relation<E>>)
    ensures var routes := Routes(env, now, enc, relations);
      && routes[0] == Route(BaseUrl(env), now, "daily", 1.0)
      && |routes| == 1 + |Filter(HasEdgesOf(), relations)|
  {
  }

  /** Every route after the first is the crafting-tree page of a record
      with a present, non-empty edge list. */
  lemma CraftingRoutesFromRecordsWithEdges<E, Date>(env: Option<string>, now: Date, enc: string -> string, relations: seq<Relation<E>>)
    ensures var routes := Routes(env, now, enc, relations);
      forall k :: 1 <= k < |routes| ==>
        exists j :: (0 <= j < |relations| && HasEdges(relations[j]) &&
          routes[k] == Route(BaseUrl(env) + CraftingPath + enc(relations[j].name), now, "weekly", 0.8))
  {
    var base := BaseUrl(env);
    var kept := Filter(HasEdgesOf<E>(), relations);
    var routes := Routes(env, now, enc, relations);
    FilterFrom(HasEdgesOf<E>(), relations);
    forall k | 1 <= k < |routes|
      ensures exists j :: (0 <= j < |relations| && HasEdges(relations[j]) &&
        routes[k] == Route(base + CraftingPath + enc(relations[j].name), now, "weekly", 0.8))
    {
      MapAt(CraftingRouteOf(base, now, enc), kept, k - 1);
      assert HasEdgesOf<E>()(kept[k - 1]);
      var j :| 0 <= j < |relations| && relations[j] == kept[k - 1];
      assert routes[k] == CraftingRoute(base, now, enc, relations[j]);
    }
  }

  /** Every record with a present, non-empty edge list gets its page. */
  lemma RecordsWithEdgesRouted<E, Date>(env: Option<string>, now: Date, enc: string -> string, relations: seq<Relation<E>>, j: nat)
    requires j < |relations| && HasEdges(relations[j])
    ensures Route(BaseUrl(env) + CraftingPath + enc(relations[j].name), now, "weekly", 0.8) in Routes(env, now, enc, relations)[1..]
  {
    var base := BaseUrl(env);
    var kept := Filter(HasEdgesOf<E>(), relations);
    FilterKeeps(HasEdgesOf<E>(), relations, j);
    var i :| 0 <= i < |kept| && kept[i] == relations[j];
    MapAt(CraftingRouteOf(base, now, enc), kept, i);
    assert Routes(env, now, enc, relations)[1..] == CraftingRoutes(base, now, enc, relations);
  }

  /** Crafting routes keep the order of the records: the routes of a
      concatenation are the routes of each part, one after the other. */
  lemma CraftingRoutesInOrder<E, Date>(baseUrl: string, now: Date, enc: string -> string, a: seq<Relation<E>>, b: seq<Relation<E>>)
    ensures CraftingRoutes(baseUrl, now, enc, a + b) == CraftingRoutes(baseUrl, now, enc, a) + CraftingRoutes(baseUrl, now, enc, b)
  {
    FilterAppend(HasEdgesOf<E>(), a, b);
    MapAppend(CraftingRouteOf<E, Date>(baseUrl, now, enc), Filter(HasEdgesOf<E>(), a), Filter(HasEdgesOf<E>(), b));
  }
}
