/** The conditional-request and response cache every page handler shares: the
    module-level `etags` and `cache` dictionaries, both keyed by the request
    path exactly as it arrived. A handler first answers 304 when the client's
    `If-None-Match` equals the stored tag, then answers from the cache, and
    only on a miss renders the page, tags it with the MD5 digest of its text
    and stores both with `setdefault`. The MD5 digest is a parameter. */
module ResponseCache {
  import opened Wrappers

  /** A response the handlers build: its text, its `ETag` and its content type. */
  datatype Page = Page(body: string, etag: string, contentType: string)

  /** What a handler answers: 304 with no body, a page, or an HTTP error. */
  datatype Reply = NotModified | Served(page: Page) | Failed(status: nat)

  /** The parts of a request the handlers read: the path and the
      `If-None-Match` header, when there is one. */
  datatype Request = Request(path: string, ifNoneMatch: Option<string>)

  /** What the route-specific middle of a handler produces on a cache miss:
      the rendered text and its content type, or an abort with a status. */
  datatype Rendered = Rendered(text: string, contentType: string) | Abort(status: nat)

  /** The two dictionaries. */
  datatype State = State(etags: map<string, string>, pages: map<string, Page>)

  /** The dictionaries agree: a path has a tag exactly when it has a page,
      the tag is the page's, and it is the digest of the page's text. */
  ghost predicate Coherent(st: State, md5: string -> string) {
    && st.etags.Keys == st.pages.Keys
    && forall p :: p in st.pages ==> st.etags[p] == st.pages[p].etag && st.pages[p].etag == md5(st.pages[p].body)
  }

  /** The prologue: 304 when the stored tag equals the header, else the cached
      page, else nothing (render). */
  function Check(st: State, req: Request): Option<Reply> {
    if req.path in st.etags && req.ifNoneMatch == Some(st.etags[req.path]) then Some(NotModified)
    else if req.path in st.pages then Some(Served(st.pages[req.path]))
    else None
  }

  /** The epilogue: tag the rendered text, `setdefault` the tag and the page,
      and answer with what the cache then holds. An abort stores nothing. */
  function Fill(st: State, path: string, rendered: Rendered, md5: string -> string): (State, Reply) {
    match rendered
    case Abort(status) => (st, Failed(status))
    case Rendered(text, contentType) =>
      var etag := md5(text);
      var etags := if path in st.etags then st.etags else st.etags[path := etag];
      var pages := if path in st.pages then st.pages else st.pages[path := Page(text, etag, contentType)];
      (State(etags, pages), Served(pages[path]))
  }

  /** One request through a handler, where `rendered` is what the handler's
      middle would produce if it ran. */
  function Step(st: State, req: Request, rendered: Rendered, md5: string -> string): (State, Reply) {
    match Check(st, req)
    case Some(reply) => (st, reply)
    case None => Fill(st, req.path, rendered, md5)
  }

  /** 304 is answered exactly when a tag is stored for the path and the
      client sent that same tag; nothing is rendered then. */
  lemma NotModifiedIff(st: State, req: Request, rendered: Rendered, md5: string -> string)
    ensures Step(st, req, rendered, md5).1 == NotModified
            <==> req.path in st.etags && req.ifNoneMatch == Some(st.etags[req.path])
    ensures Step(st, req, rendered, md5).1 == NotModified ==> Step(st, req, rendered, md5).0 == st
  {
  }

  /** Every request keeps the dictionaries coherent. */
  lemma StepKeepsCoherent(st: State, req: Request, rendered: Rendered, md5: string -> string)
    requires Coherent(st, md5)
    ensures Coherent(Step(st, req, rendered, md5).0, md5)
  {
  }

  /** In a coherent state, a served page carries the digest of its own text
      as its tag, and a miss renders and stores the new page. */
  lemma ServedPageTagged(st: State, req: Request, rendered: Rendered, md5: string -> string)
    requires Coherent(st, md5)
    ensures Step(st, req, rendered, md5).1.Served? ==>
              Step(st, req, rendered, md5).1.page.etag == md5(Step(st, req, rendered, md5).1.page.body)
    ensures req.path !in st.pages && rendered.Rendered? ==>
              Step(st, req, rendered, md5).1
              == Served(Page(rendered.text, md5(rendered.text), rendered.contentType))
    ensures Check(st, req).None? && rendered.Rendered? ==>
              var (st', reply) := Step(st, req, rendered, md5);
              && req.path in st'.etags && req.path in st'.pages
              && st'.pages[req.path] == Page(rendered.text, md5(rendered.text), rendered.contentType)
              && st'.etags[req.path] == md5(rendered.text)
              && reply == Served(st'.pages[req.path])
  {
  }

  /** A page served once is what the next request for the same path gets
      (or 304), whatever the handler would render then: the first miss
      stores the page, and later requests are answered from the cache. */
  lemma RepeatServesSame(st: State, req: Request, rendered: Rendered, req2: Request, rendered2: Rendered, md5: string -> string)
    requires Coherent(st, md5)
    requires req2.path == req.path
    requires Step(st, req, rendered, md5).1.Served?
    ensures var (st', reply) := Step(st, req, rendered, md5);
            Step(st', req2, rendered2, md5).1 in {NotModified, reply}
  {
    var (st', reply) := Step(st, req, rendered, md5);
    StepKeepsCoherent(st, req, rendered, md5);
    assert req.path in st'.pages && reply == Served(st'.pages[req.path]);
    CachedPathAnswered(st', req2, rendered2, md5);
  }

  /** Entries are only ever added: a stored tag or page never changes. */
  lemma StepOnlyAdds(st: State, req: Request, rendered: Rendered, md5: string -> string)
    ensures var st' := Step(st, req, rendered, md5).0;
            && (forall p :: p in st.etags ==> p in st'.etags && st'.etags[p] == st.etags[p])
            && (forall p :: p in st.pages ==> p in st'.pages && st'.pages[p] == st.pages[p])
            && st'.etags.Keys <= st.etags.Keys + {req.path}
            && st'.pages.Keys <= st.pages.Keys + {req.path}
  {
  }

  /** An aborted page stores nothing, so the next request renders again. */
  lemma AbortStoresNothing(st: State, req: Request, status: nat, md5: string -> string)
    ensures Step(st, req, Abort(status), md5).0 == st
    ensures Check(st, req).None? ==> Step(st, req, Abort(status), md5).1 == Failed(status)
  {
  }

  /** Once a path's page is stored, that path is answered with the same page,
      or with 304 when the client sends its tag, whatever the handler would
      render now. */
  lemma CachedPathAnswered(st: State, req: Request, rendered: Rendered, md5: string -> string)
    requires Coherent(st, md5) && req.path in st.pages
    ensures var reply := Step(st, req, rendered, md5).1;
            if req.ifNoneMatch == Some(st.pages[req.path].etag) then reply == NotModified
            else reply == Served(st.pages[req.path])
  {
  }

  /** A sequence of requests, each with what its handler would render. */
  function Run(st: State, reqs: seq<(Request, Rendered)>, md5: string -> string): (State, seq<Reply>)
    decreases |reqs|
  {
    if reqs == [] then (st, [])
    else
      var next := Step(st, reqs[0].0, reqs[0].1, md5);
      var rest := Run(next.0, reqs[1..], md5);
      (rest.0, [next.1] + rest.1)
  }

  /** Over any run, the dictionaries stay coherent, one reply comes per
      request, and a page stored before the run is what every request for its
      path gets (or 304), however the site changed meanwhile. */
  lemma {:induction false} RunKeepsPage(st: State, reqs: seq<(Request, Rendered)>, md5: string -> string, path: string)
    requires Coherent(st, md5) && path in st.pages
    ensures Coherent(Run(st, reqs, md5).0, md5)
    ensures |Run(st, reqs, md5).1| == |reqs|
    ensures path in Run(st, reqs, md5).0.pages && Run(st, reqs, md5).0.pages[path] == st.pages[path]
    ensures forall i :: 0 <= i < |reqs| && reqs[i].0.path == path
              ==> Run(st, reqs, md5).1[i] in {NotModified, Served(st.pages[path])}
    decreases |reqs|
  {
    if reqs != [] {
      var req, rendered := reqs[0].0, reqs[0].1;
      var next := Step(st, req, rendered, md5);
      StepKeepsCoherent(st, req, rendered, md5);
      StepOnlyAdds(st, req, rendered, md5);
      if req.path == path {
        CachedPathAnswered(st, req, rendered, md5);
      }
      RunKeepsPage(next.0, reqs[1..], md5, path);
      var rest := Run(next.0, reqs[1..], md5);
      assert Run(st, reqs, md5) == (rest.0, [next.1] + rest.1);
      forall i | 1 <= i < |reqs| && reqs[i].0.path == path
        ensures Run(st, reqs, md5).1[i] in {NotModified, Served(st.pages[path])}
      {
        assert reqs[i] == reqs[1..][i - 1];
      }
    }
  }

  /** The two module-level dictionaries. */
  class Cache {
    var etags: map<string, string>
    var pages: map<string, Page>

    function Current(): State
      reads this
    {
      State(etags, pages)
    }

    /** Both dictionaries start empty. */
    constructor()
      ensures etags == map[] && pages == map[]
    {
      etags := map[];
      pages := map[];
    }

    /** The handler prologue: answers 304 or a cached page, or nothing when
        the page must be rendered. It changes nothing. */
    method Lookup(req: Request) returns (hit: Option<Reply>)
      ensures hit == Check(Current(), req)
    {
      if req.path in etags {
        var etag := etags[req.path];
        if req.ifNoneMatch.Some? {
          if etag == req.ifNoneMatch.value {
            return Some(NotModified);
          }
        }
      }
      if req.path in pages {
        return Some(Served(pages[req.path]));
      }
      return None;
    }

    /** The handler epilogue on a miss: digest the text, `setdefault` the tag
        and the page, and answer with the stored page; an abort leaves both
        dictionaries alone. */
    method Store(path: string, rendered: Rendered, md5: string -> string) returns (reply: Reply)
      modifies this
      ensures (Current(), reply) == Fill(old(Current()), path, rendered, md5)
    {
      if rendered.Abort? {
        return Failed(rendered.status);
      }
      var etag := md5(rendered.text);
      if path !in etags {
        etags := etags[path := etag];
      }
      var page := Page(rendered.text, etag, rendered.contentType);
      if path !in pages {
        pages := pages[path := page];
      }
      reply := Served(pages[path]);
    }
  }
}
