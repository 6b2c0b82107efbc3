/** The six page handlers. Each runs the shared cache prologue, renders its
    page on a miss, and runs the shared epilogue. What the handlers read from
    outside (the application root, the configuration, the directory tree, the
    files, the templates and the MD5 digest) is gathered in a `Site`. */
module Routes {
  import opened Wrappers
  import opened Posts
  import opened Selection
  import opened ResponseCache

  /** The handlers, with the arguments their URL rules capture. */
  datatype Route =
    | Index
    | Alpha
    | Chrono
    | Month(y: nat, m: nat)
    | Single(y: nat, m: nat, d: nat, slug: string)
    | Rss

  /** Everything a handler reads besides the request and the cache. */
  datatype Site = Site(
    root: string,                              // app.root_path
    frontPage: Option<int>,                    // app.config.get('POSTS_ON_FRONT_PAGE')
    walk: string -> seq<WalkEntry>,            // os.walk(directory)
    dirs: set<string>,                         // the paths os.path.exists accepts
    disk: map<string, string>,                 // the text of each file
    lib: Foreign,
    renderList: (string, seq<Post>) -> string, // render_template(name, posts=...)
    renderPost: Post -> string,                // render_template('post.html', post=...)
    md5: string -> string)                     // hashlib.md5(...).hexdigest()

  /** The content type `flask.make_response` gives a rendered template. */
  const Html := "text/html; charset=utf-8"
  const RssType := "application/rss+xml"

  /** The directory `most_recent_posts` walks. */
  function PostsRoot(site: Site): string {
    Text.JoinPath(site.root, "posts")
  }

  /** A list of posts through a template, or 500 when a post did not parse. */
  function ListPage(site: Site, template: string, posts: Result<seq<Post>, ParseError>, contentType: string): Rendered {
    match posts
    case Err(_) => Abort(500)
    case Ok(ps) => Rendered(site.renderList(template, ps), contentType)
  }

  /** A sorted list of posts through a template, or 500 when a post did not
      parse or the posts could not be sorted. */
  function SortedPage(site: Site, template: string, posts: Result<seq<Post>, ParseError>, key: string, reverse: bool): Rendered {
    match posts
    case Err(_) => Abort(500)
    case Ok(ps) =>
      match SortPosts(ps, key, reverse)
      case Err(_) => Abort(500)
      case Ok(sorted) => Rendered(site.renderList(template, sorted), Html)
  }

  /** The posts `most_recent_posts(limit)` returns for the site. */
  function Newest(site: Site, limit: Option<int>): Result<seq<Post>, ParseError> {
    ParseAll(NewestPaths(MarkdownPaths(site.walk(PostsRoot(site))), limit), Parser(site.disk, site.lib))
  }

  /** The middle of `month_index`: 404 when the month's directory does not
      exist, else its posts, newest first. */
  function MonthPage(site: Site, y: nat, m: nat): Rendered {
    var dir := MonthPath(site.root, y, m);
    if dir !in site.dirs then Abort(404)
    else SortedPage(site, "posts.html", ParseAll(MarkdownPaths(site.walk(dir)), Parser(site.disk, site.lib)), "published", true)
  }

  /** The middle of `post`: the parsed post through its template, or 500
      when the file is missing or does not parse. */
  function SinglePage(site: Site, y: nat, m: nat, d: nat, slug: string): Rendered {
    match Parser(site.disk, site.lib)(PostSourcePath(site.root, y, m, d, slug))
    case Err(_) => Abort(500)
    case Ok(post) => Rendered(site.renderPost(post), Html)
  }

  /** What the middle of each handler produces on a cache miss. An exception
      escaping a handler is a 500. */
  function Render(site: Site, route: Route): Rendered {
    match route
    case Index => ListPage(site, "posts.html", Newest(site, site.frontPage), Html)
    case Alpha => SortedPage(site, "alpha_index.html", Newest(site, Some(0)), "title", false)
    case Chrono => SortedPage(site, "chrono_index.html", Newest(site, Some(0)), "published", true)
    case Month(y, m) => MonthPage(site, y, m)
    case Single(y, m, d, slug) => SinglePage(site, y, m, d, slug)
    case Rss => ListPage(site, "rss.xml", Newest(site, Some(20)), RssType)
  }

  /** `most_recent_posts(limit)` run for the site. */
  method NewestPosts(site: Site, limit: Option<int>) returns (posts: Result<seq<Post>, ParseError>)
    ensures posts == Newest(site, limit)
  {
    posts := MostRecentPosts(site.walk(PostsRoot(site)), limit, site.disk, site.lib);
  }

  /** The middle of `month_index`, run step by step. */
  method RenderMonth(site: Site, y: nat, m: nat) returns (rendered: Rendered)
    ensures rendered == MonthPage(site, y, m)
  {
    var dir := MonthPath(site.root, y, m);
    if dir !in site.dirs {
      return Abort(404);
    }
    var posts := GetPostsInFolder(site.walk(dir), site.disk, site.lib);
    rendered := SortedPage(site, "posts.html", posts, "published", true);
  }

  /** The middle of `post`, run step by step. */
  method RenderSingle(site: Site, y: nat, m: nat, d: nat, slug: string) returns (rendered: Rendered)
    ensures rendered == SinglePage(site, y, m, d, slug)
  {
    var path := PostSourcePath(site.root, y, m, d, slug);
    var post := ParseOne(path, site.disk, site.lib);
    if post.Err? {
      return Abort(500);
    }
    rendered := Rendered(site.renderPost(post.value), Html);
  }

  /** The middle of the handler for `route`, run step by step. */
  method RenderPage(site: Site, route: Route) returns (rendered: Rendered)
    ensures rendered == Render(site, route)
  {
    match route {
      case Index =>
        var posts := NewestPosts(site, site.frontPage);
        rendered := ListPage(site, "posts.html", posts, Html);
      case Alpha =>
        var posts := NewestPosts(site, Some(0));
        rendered := SortedPage(site, "alpha_index.html", posts, "title", false);
      case Chrono =>
        var posts := NewestPosts(site, Some(0));
        rendered := SortedPage(site, "chrono_index.html", posts, "published", true);
      case Month(y, m) =>
        rendered := RenderMonth(site, y, m);
      case Single(y, m, d, slug) =>
        rendered := RenderSingle(site, y, m, d, slug);
      case Rss =>
        var posts := NewestPosts(site, Some(20));
        rendered := ListPage(site, "rss.xml", posts, RssType);
    }
  }

  /** A whole handler: the cache prologue, the page on a miss, the epilogue. */
  method Handle(cache: Cache, site: Site, route: Route, req: Request) returns (reply: Reply)
    modifies cache
    ensures (cache.Current(), reply) == Step(old(cache.Current()), req, Render(site, route), site.md5)
  {
    var hit := cache.Lookup(req);
    if hit.Some? {
      return hit.value;
    }
    var rendered := RenderPage(site, route);
    reply := cache.Store(req.path, rendered, site.md5);
  }

  // ---------------------------------------------------------------------------
  // What the handlers promise

  /** The alphabetical and chronological indexes, and a month that exists,
      fail only when a post does not parse: sorting parsed posts by title or
      by date never fails. */
  lemma IndexesFailOnlyOnParse(site: Site, route: Route)
    requires route.Alpha? || route.Chrono? || (route.Month? && MonthPath(site.root, route.y, route.m) in site.dirs)
    ensures Render(site, route).Abort? ==> Render(site, route) == Abort(500)
    ensures Render(site, route).Abort? <==>
              match route
              case Month(y, m) => ParseAll(MarkdownPaths(site.walk(MonthPath(site.root, y, m))), Parser(site.disk, site.lib)).Err?
              case _ => Newest(site, Some(0)).Err?
  {
    var paths := match route
      case Month(y, m) => MarkdownPaths(site.walk(MonthPath(site.root, y, m)))
      case _ => NewestPaths(MarkdownPaths(site.walk(PostsRoot(site))), Some(0));
    var parse := Parser(site.disk, site.lib);
    if ParseAll(paths, parse).Ok? {
      ParsedPostsWellShaped(paths, site.disk, site.lib);
      var key := if route.Alpha? then "title" else "published";
      WellShapedSortable(ParseAll(paths, parse).value, key, !route.Alpha?);
    }
  }

  /** A month page is 404 exactly when its directory does not exist. */
  lemma MonthMissingIs404(site: Site, y: nat, m: nat)
    ensures Render(site, Month(y, m)) == Abort(404) <==> MonthPath(site.root, y, m) !in site.dirs
  {
    if MonthPath(site.root, y, m) in site.dirs {
      IndexesFailOnlyOnParse(site, Month(y, m));
    }
  }

  /** A month directory that exists but holds no posts gives an empty list,
      not a 404. */
  lemma EmptyMonthListed(site: Site, y: nat, m: nat)
    requires MonthPath(site.root, y, m) in site.dirs
    requires MarkdownPaths(site.walk(MonthPath(site.root, y, m))) == []
    ensures Render(site, Month(y, m)) == Rendered(site.renderList("posts.html", []), Html)
  {
    var empty: seq<Post> := [];
    assert ParseAll([], Parser(site.disk, site.lib)) == Ok(empty);
    assert SortPosts(empty, "published", true) == Ok(empty);
    assert MonthPage(site, y, m) == SortedPage(site, "posts.html", Ok(empty), "published", true);
  }

  /** The single-post page is never a 404: a missing or unreadable file is a
      500, and a file that parses is rendered. */
  lemma SinglePostNever404(site: Site, y: nat, m: nat, d: nat, slug: string)
    ensures var path := PostSourcePath(site.root, y, m, d, slug);
            match PostFromFile(path, FileAt(site.disk, path), site.lib)
            case Err(_) => Render(site, Single(y, m, d, slug)) == Abort(500)
            case Ok(post) => Render(site, Single(y, m, d, slug)) == Rendered(site.renderPost(post), Html)
  {
  }

  /** The RSS feed is the only page served as `application/rss+xml`. */
  lemma OnlyRssIsRss(site: Site, route: Route)
    ensures Render(site, route).Rendered? ==> (Render(site, route).contentType == RssType <==> route == Rss)
  {
    assert Html != RssType by {
      assert Html[0] != RssType[0];
    }
  }

  /** The RSS feed and the front page list the newest posts: the RSS feed at
      most 20 of them. */
  lemma RssAtMostTwenty(site: Site)
    ensures Newest(site, Some(20)).Ok? ==> |Newest(site, Some(20)).value| <= 20
  {
    var all := MarkdownPaths(site.walk(PostsRoot(site)));
    NewestPathsSpec(all, Some(20));
    ParseAllSpec(NewestPaths(all, Some(20)), Parser(site.disk, site.lib));
  }
}
