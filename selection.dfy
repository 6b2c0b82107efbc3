/** Choosing and ordering posts: `most_recent_posts`, `get_posts_in_folder`
    and `sort_posts`. The directory walk and the files' contents are inputs:
    a walk is the sequence of (directory, file names) steps `os.walk` yields,
    and the disk maps a path to the text of the file there. */
module Selection {
  import opened Wrappers
  import opened Text
  import opened DateTimes
  import opened Posts
  import opened Sorting

  /** One step of `os.walk`: a directory and the names of the files in it. */
  datatype WalkEntry = WalkEntry(root: string, files: seq<string>)

  /** The full paths of the `.md` files among `files`, in their order. */
  function MarkdownIn(root: string, files: seq<string>): seq<string> {
    if files == [] then []
    else
      var fn := files[|files| - 1];
      MarkdownIn(root, files[..|files| - 1]) + (if EndsWith(fn, ".md") then [JoinPath(root, fn)] else [])
  }

  /** The full paths of the `.md` files of a walk, in the order the walk lists them. */
  function MarkdownPaths(walk: seq<WalkEntry>): seq<string> {
    if walk == [] then []
    else
      var e := walk[|walk| - 1];
      MarkdownPaths(walk[..|walk| - 1]) + MarkdownIn(e.root, e.files)
  }

  /** A path is collected from a directory exactly when it joins the directory
      to one of its file names ending in `.md`. */
  lemma {:induction false} MarkdownInMembers(root: string, files: seq<string>, p: string)
    ensures p in MarkdownIn(root, files)
            <==> exists j :: 0 <= j < |files| && EndsWith(files[j], ".md") && p == JoinPath(root, files[j])
  {
    if files != [] {
      var init := files[..|files| - 1];
      MarkdownInMembers(root, init, p);
      assert forall j :: 0 <= j < |init| ==> init[j] == files[j];
    }
  }

  /** A path is collected from a walk exactly when it is collected from one of
      the walk's directories. */
  lemma {:induction false} MarkdownPathsMembers(walk: seq<WalkEntry>, p: string)
    ensures p in MarkdownPaths(walk)
            <==> exists i :: 0 <= i < |walk| && p in MarkdownIn(walk[i].root, walk[i].files)
  {
    if walk != [] {
      var init, e := walk[..|walk| - 1], walk[|walk| - 1];
      MarkdownPathsMembers(init, p);
      assert MarkdownPaths(walk) == MarkdownPaths(init) + MarkdownIn(e.root, e.files);
      if p in MarkdownPaths(init) {
        var i :| 0 <= i < |init| && p in MarkdownIn(init[i].root, init[i].files);
        assert init[i] == walk[i];
      }
      if exists i :: 0 <= i < |walk| && p in MarkdownIn(walk[i].root, walk[i].files) {
        var i :| 0 <= i < |walk| && p in MarkdownIn(walk[i].root, walk[i].files);
        if i < |init| {
          assert init[i] == walk[i];
        }
      }
    }
  }

  /** Every collected path names a Markdown file. */
  lemma {:induction false} MarkdownPathsEndInMd(walk: seq<WalkEntry>)
    ensures forall k :: 0 <= k < |MarkdownPaths(walk)| ==> EndsWith(MarkdownPaths(walk)[k], ".md")
  {
    forall k | 0 <= k < |MarkdownPaths(walk)|
      ensures EndsWith(MarkdownPaths(walk)[k], ".md")
    {
      var p := MarkdownPaths(walk)[k];
      MarkdownPathsMembers(walk, p);
      var i :| 0 <= i < |walk| && p in MarkdownIn(walk[i].root, walk[i].files);
      MarkdownInMembers(walk[i].root, walk[i].files, p);
      var files := walk[i].files;
      var j :| 0 <= j < |files| && EndsWith(files[j], ".md") && p == JoinPath(walk[i].root, files[j]);
      EndsWithTrans(p, files[j], ".md");
    }
  }

  lemma EndsWithTrans(s: string, t: string, u: string)
    requires EndsWith(s, t) && EndsWith(t, u)
    ensures EndsWith(s, u)
  {
    assert s[|s| - |u|..] == s[|s| - |t|..][|t| - |u|..];
  }

  /** The loops at the top of `most_recent_posts` and `get_posts_in_folder`:
      walk the tree and keep the paths of the `.md` files. */
  method CollectMarkdownPaths(walk: seq<WalkEntry>) returns (paths: seq<string>)
    ensures paths == MarkdownPaths(walk)
  {
    paths := [];
    var i := 0;
    while i < |walk|
      invariant 0 <= i <= |walk|
      invariant paths == MarkdownPaths(walk[..i])
    {
      var e := walk[i];
      var j := 0;
      while j < |e.files|
        invariant 0 <= j <= |e.files|
        invariant paths == MarkdownPaths(walk[..i]) + MarkdownIn(e.root, e.files[..j])
      {
        var fn := e.files[j];
        assert e.files[..j + 1][..j] == e.files[..j];
        if EndsWith(fn, ".md") {
          paths := paths + [JoinPath(e.root, fn)];
        }
        j := j + 1;
      }
      assert e.files[..j] == e.files;
      assert walk[..i + 1][..i] == walk[..i];
      i := i + 1;
    }
    assert walk[..i] == walk;
  }

  // ---------------------------------------------------------------------------
  // The newest paths

  /** `s[:k]` for an integer k, with Python's slice rules: a negative k counts
      from the end. */
  function PyPrefix<T>(s: seq<T>, k: int): seq<T> {
    if k >= 0 then s[..if k < |s| then k else |s|]
    else s[..if |s| + k > 0 then |s| + k else 0]
  }

  /** `sorted(paths, reverse=True)`: the paths from last to first in string order. */
  function Descending(paths: seq<string>): (r: seq<string>)
    ensures |r| == |paths|
  {
    SortPermutes(paths, p => p, Flip(StrLess));
    assert |multiset(Sort(paths, p => p, Flip(StrLess)))| == |multiset(paths)|;
    Sort(paths, p => p, Flip(StrLess))
  }

  /** How many paths `most_recent_posts(limit)` keeps out of n: all of them
      when the limit is absent or 0, otherwise as many as `[:limit]` keeps. */
  function KeptCount(n: nat, limit: Option<int>): nat {
    if limit == None || limit == Some(0) then n
    else if limit.value >= 0 then (if limit.value < n then limit.value else n)
    else if n + limit.value > 0 then n + limit.value
    else 0
  }

  /** The paths `most_recent_posts(limit)` parses, in the order it parses them. */
  function NewestPaths(paths: seq<string>, limit: Option<int>): seq<string> {
    var all := Descending(paths);
    var chosen := if limit == None || limit == Some(0) then all else PyPrefix(all, limit.value);
    Descending(chosen)
  }

  /** The descending order is a permutation of the paths and is sorted. */
  lemma DescendingSpec(paths: seq<string>)
    ensures multiset(Descending(paths)) == multiset(paths)
    ensures Sorted(Descending(paths), p => p, Flip(StrLess))
  {
    SortPermutes(paths, p => p, Flip(StrLess));
    StrLessIsStrictTotalOrder();
    FlipIsStrictTotalOrder(StrLess);
    SortSorted(paths, p => p, Flip(StrLess));
  }

  /** `most_recent_posts` keeps the first `KeptCount` paths of the descending
      order, and the second sort leaves them in that order: the result is
      sorted from the greatest path down, and no path left out sorts after
      one that is kept. */
  lemma NewestPathsSpec(paths: seq<string>, limit: Option<int>)
    ensures var r := NewestPaths(paths, limit);
            && |r| == KeptCount(|paths|, limit)
            && r == Descending(paths)[..|r|]
            && Sorted(r, p => p, Flip(StrLess))
            && forall i, j :: 0 <= i < |r| <= j < |paths| ==> !StrLess(r[i], Descending(paths)[j])
  {
    var all := Descending(paths);
    DescendingSpec(paths);
    var n := KeptCount(|paths|, limit);
    var chosen := if limit == None || limit == Some(0) then all else PyPrefix(all, limit.value);
    assert chosen == all[..n];
    SortedPrefix(all, n, p => p, Flip(StrLess));
    SortOfSorted(chosen, p => p, Flip(StrLess));
  }

  /** The paths kept are among the walk's paths. */
  lemma NewestPathsFromInput(paths: seq<string>, limit: Option<int>)
    ensures multiset(NewestPaths(paths, limit)) <= multiset(paths)
  {
    var all := Descending(paths);
    var r := NewestPaths(paths, limit);
    NewestPathsSpec(paths, limit);
    DescendingSpec(paths);
    assert all == r + all[|r|..];
    assert multiset(all) == multiset(r) + multiset(all[|r|..]);
  }

  // ---------------------------------------------------------------------------
  // Parsing a list of paths

  /** The text of the file at path, or None when there is none. */
  function FileAt(disk: map<string, string>, path: string): Option<string> {
    if path in disk then Some(disk[path]) else None
  }

  /** `parse_post` as a function of the path alone, for a given disk. */
  function Parser(disk: map<string, string>, lib: Foreign): string -> Result<Post, ParseError> {
    path => PostFromFile(path, FileAt(disk, path), lib)
  }

  /** `[parse(path) for path in paths]`: the results in order, or the failure
      of the first path that does not parse. */
  function ParseAll<P>(paths: seq<string>, parse: string -> Result<P, ParseError>): Result<seq<P>, ParseError> {
    if paths == [] then Ok([])
    else
      match parse(paths[0])
      case Err(e) => Err(e)
      case Ok(post) =>
        match ParseAll(paths[1..], parse)
        case Err(e) => Err(e)
        case Ok(rest) => Ok([post] + rest)
  }

  /** The list comprehension succeeds exactly when every path parses, and it
      then holds each path's result at the path's position. */
  lemma {:induction false} ParseAllSpec<P>(paths: seq<string>, parse: string -> Result<P, ParseError>)
    ensures ParseAll(paths, parse).Ok? <==> forall i :: 0 <= i < |paths| ==> parse(paths[i]).Ok?
    ensures ParseAll(paths, parse).Ok? ==>
              && |ParseAll(paths, parse).value| == |paths|
              && forall i :: 0 <= i < |paths| ==> ParseAll(paths, parse).value[i] == parse(paths[i]).value
  {
    if paths != [] {
      var rest := paths[1..];
      ParseAllSpec(rest, parse);
      assert forall i :: 0 <= i < |rest| ==> rest[i] == paths[i + 1];
      if parse(paths[0]).Ok? && ParseAll(rest, parse).Ok? {
        assert ParseAll(paths, parse).value == [parse(paths[0]).value] + ParseAll(rest, parse).value;
      }
    }
  }

  /** When every path before i parses and path i does not, the list
      comprehension reports the failure at i. */
  lemma {:induction false} FirstFailure<P>(paths: seq<string>, parse: string -> Result<P, ParseError>, i: nat)
    requires i < |paths|
    requires forall j :: 0 <= j < i ==> parse(paths[j]).Ok?
    requires parse(paths[i]).Err?
    ensures ParseAll(paths, parse) == Err(parse(paths[i]).error)
  {
    if i > 0 {
      var rest := paths[1..];
      assert forall j :: 0 <= j < i - 1 ==> rest[j] == paths[j + 1];
      assert parse(paths[0]).Ok?;
      FirstFailure(rest, parse, i - 1);
    }
  }

  /** `parse_post(path)` with the file's text taken from the disk. */
  method ParseOne(path: string, disk: map<string, string>, lib: Foreign) returns (r: Result<Post, ParseError>)
    ensures r == Parser(disk, lib)(path)
  {
    r := ParsePost(path, FileAt(disk, path), lib);
  }

  /** One more path at the end of a list that parses. */
  lemma {:induction false} ParseAllSnoc<P>(paths: seq<string>, parse: string -> Result<P, ParseError>, p: string)
    requires ParseAll(paths, parse).Ok?
    ensures parse(p).Ok? ==> ParseAll(paths + [p], parse) == Ok(ParseAll(paths, parse).value + [parse(p).value])
    ensures parse(p).Err? ==> ParseAll(paths + [p], parse) == Err(parse(p).error)
  {
    if paths != [] {
      assert (paths + [p])[0] == paths[0];
      assert (paths + [p])[1..] == paths[1..] + [p];
      ParseAllSnoc(paths[1..], parse, p);
      var head := parse(paths[0]).value;
      var rest := ParseAll(paths[1..], parse).value;
      assert ParseAll(paths, parse).value == [head] + rest;
      if parse(p).Ok? {
        assert ParseAll(paths + [p], parse).value == [head] + (rest + [parse(p).value]);
        assert [head] + (rest + [parse(p).value]) == ([head] + rest) + [parse(p).value];
      }
    } else {
      assert paths + [p] == [p];
      assert ParseAll([p][1..], parse) == Ok([]);
      assert [p][0] == p;
      if parse(p).Ok? {
        assert [parse(p).value] + [] == [parse(p).value];
        assert ParseAll([p], parse) == Ok([parse(p).value]);
        assert ParseAll(paths, parse).value + [parse(p).value] == [parse(p).value];
      }
    }
  }

  /** Once a list fails, nothing after it changes the failure. */
  lemma {:induction false} ParseAllErrAppend<P>(a: seq<string>, b: seq<string>, parse: string -> Result<P, ParseError>)
    requires ParseAll(a, parse).Err?
    ensures ParseAll(a + b, parse) == ParseAll(a, parse)
  {
    assert (a + b)[0] == a[0];
    if parse(a[0]).Ok? {
      assert (a + b)[1..] == a[1..] + b;
      ParseAllErrAppend(a[1..], b, parse);
    }
  }

  /** One turn of the list comprehension: the next result either extends the
      list or is the failure of the whole comprehension. */
  lemma ParseAllStep<P>(paths: seq<string>, parse: string -> Result<P, ParseError>, i: nat, done: seq<P>)
    requires i < |paths| && ParseAll(paths[..i], parse) == Ok(done)
    ensures parse(paths[i]).Ok? ==> ParseAll(paths[..i + 1], parse) == Ok(done + [parse(paths[i]).value])
    ensures parse(paths[i]).Err? ==> ParseAll(paths, parse) == Err(parse(paths[i]).error)
  {
    ParseAllSnoc(paths[..i], parse, paths[i]);
    assert paths[..i + 1] == paths[..i] + [paths[i]];
    if parse(paths[i]).Err? {
      ParseAllErrAppend(paths[..i + 1], paths[i + 1..], parse);
      assert paths == paths[..i + 1] + paths[i + 1..];
    }
  }

  /** The list comprehension, one `parse_post` call per path, stopping at the
      first failure. */
  method ParseEach(paths: seq<string>, disk: map<string, string>, lib: Foreign)
    returns (r: Result<seq<Post>, ParseError>)
    ensures r == ParseAll(paths, Parser(disk, lib))
  {
    var posts: seq<Post> := [];
    var i := 0;
    assert paths[..0] == [];
    while i < |paths|
      invariant 0 <= i <= |paths|
      invariant ParseAll(paths[..i], Parser(disk, lib)) == Ok(posts)
    {
      var post := ParseOne(paths[i], disk, lib);
      ParseAllStep(paths, Parser(disk, lib), i, posts);
      if post.Err? {
        return Err(post.error);
      }
      posts := posts + [post.value];
      i := i + 1;
    }
    assert paths[..i] == paths;
    return Ok(posts);
  }

  /** `most_recent_posts(limit)` on a walk of the posts directory. */
  method MostRecentPosts(walk: seq<WalkEntry>, limit: Option<int>, disk: map<string, string>, lib: Foreign)
    returns (r: Result<seq<Post>, ParseError>)
    ensures r == ParseAll(NewestPaths(MarkdownPaths(walk), limit), Parser(disk, lib))
  {
    var all := CollectMarkdownPaths(walk);
    all := Descending(all);
    var paths := if limit == None || limit == Some(0) then all else PyPrefix(all, limit.value);
    r := ParseEach(Descending(paths), disk, lib);
  }

  /** `get_posts_in_folder(folder)` on a walk of the folder, in walk order. */
  method GetPostsInFolder(walk: seq<WalkEntry>, disk: map<string, string>, lib: Foreign)
    returns (r: Result<seq<Post>, ParseError>)
    ensures r == ParseAll(MarkdownPaths(walk), Parser(disk, lib))
  {
    var paths := CollectMarkdownPaths(walk);
    r := ParseEach(paths, disk, lib);
  }

  // ---------------------------------------------------------------------------
  // sort_posts

  /** `sorted` raised a TypeError: some key was missing (None) or two keys
      had kinds Python cannot order. */
  datatype SortError = Incomparable

  /** `record.get(sort_key)`. */
  function KeyOf(sortKey: string): Post -> Option<Value> {
    post => if sortKey in post then Some(post[sortKey]) else None
  }

  predicate SameKind(a: Value, b: Value) {
    (a.Str? && b.Str?) || (a.Date? && b.Date?) || (a.Int? && b.Int?)
  }

  /** Every post has the key, and all the keys are of one kind, so Python can
      compare any two of them. */
  predicate Comparable(posts: seq<Post>, sortKey: string) {
    && (forall i :: 0 <= i < |posts| ==> sortKey in posts[i])
    && (forall i :: 0 <= i < |posts| ==> SameKind(posts[i][sortKey], posts[0][sortKey]))
  }

  function Rank(v: Value): nat {
    match v
    case Str(_) => 0
    case Date(_) => 1
    case Int(_) => 2
  }

  /** Python's `<` on two keys of the same kind. Across kinds (where Python
      raises) it falls back to an arbitrary rank, and a missing key sorts
      first; `SortPosts` never relies on either, since it fails on such
      inputs, but they make the order total. */
  predicate KeyLess(a: Option<Value>, b: Option<Value>) {
    match (a, b)
    case (None, None) => false
    case (None, Some(_)) => true
    case (Some(_), None) => false
    case (Some(x), Some(y)) =>
      if Rank(x) != Rank(y) then Rank(x) < Rank(y)
      else match (x, y)
        case (Str(s), Str(t)) => StrLess(s, t)
        case (Date(s), Date(t)) => Before(s, t)
        case (Int(s), Int(t)) => s < t
        case _ => false
  }

  /** `sort_posts(posts, sort_key, reverse)`. With two or more posts Python
      compares every pair that ends up adjacent, so a missing key or two kinds
      of key make it raise. */
  function SortPosts(posts: seq<Post>, sortKey: string, reverse: bool): Result<seq<Post>, SortError> {
    if |posts| >= 2 && !Comparable(posts, sortKey) then Err(Incomparable)
    else Ok(Sort(posts, KeyOf(sortKey), if reverse then Flip(KeyLess) else KeyLess))
  }

  lemma {:induction false} BeforeTotal(a: DateTime, b: DateTime)
    requires a != b
    ensures Before(a, b) || Before(b, a)
  {
  }

  lemma KeyLessIsStrictTotalOrder()
    ensures StrictTotalOrder(KeyLess)
  {
    StrLessIsStrictTotalOrder();
    forall a, b, c | KeyLess(a, b) && KeyLess(b, c)
      ensures KeyLess(a, c)
    {
      if a.Some? && b.Some? && c.Some? && a.value.Str? && b.value.Str? && c.value.Str? {
        StrLessTransitive(a.value.text, b.value.text, c.value.text);
      }
    }
    forall a, b | a != b
      ensures KeyLess(a, b) || KeyLess(b, a)
    {
      if a.Some? && b.Some? && a.value.Str? && b.value.Str? {
        StrLessTotal(a.value.text, b.value.text);
      }
    }
  }

  /** `sort_posts` fails exactly when there are two or more posts and their
      keys cannot all be compared; otherwise it returns the same posts, ordered
      by the key (from greatest down when `reverse`), and posts with equal keys
      keep their order. */
  lemma SortPostsSpec(posts: seq<Post>, sortKey: string, reverse: bool)
    ensures SortPosts(posts, sortKey, reverse).Err? <==> |posts| >= 2 && !Comparable(posts, sortKey)
    ensures SortPosts(posts, sortKey, reverse).Ok? ==>
              var r := SortPosts(posts, sortKey, reverse).value;
              var less := if reverse then Flip(KeyLess) else KeyLess;
              && multiset(r) == multiset(posts)
              && Sorted(r, KeyOf(sortKey), less)
              && forall k :: Having(r, KeyOf(sortKey), k) == Having(posts, KeyOf(sortKey), k)
  {
    if SortPosts(posts, sortKey, reverse).Ok? {
      var less := if reverse then Flip(KeyLess) else KeyLess;
      KeyLessIsStrictTotalOrder();
      FlipIsStrictTotalOrder(KeyLess);
      assert StrictTotalOrder(less);
      SortPermutes(posts, KeyOf(sortKey), less);
      SortSorted(posts, KeyOf(sortKey), less);
      forall k
        ensures Having(Sort(posts, KeyOf(sortKey), less), KeyOf(sortKey), k) == Having(posts, KeyOf(sortKey), k)
      {
        SortStable(posts, KeyOf(sortKey), less, k);
      }
    }
  }

  // ---------------------------------------------------------------------------
  // Sorting the posts `parse_post` produces

  /** The kind of value `parse_post` stores under a key. */
  function KindOf(key: string): Value {
    if key == "published" then Date(DateTime(1, 1, 1, 0, 0, 0))
    else if key == "year" then Int(0)
    else Str([])
  }

  /** The fields every post `parse_post` returns has, with the kinds of value
      it stores: a `title` and a `published`, and every field a string except
      `published` (a date and time) and `year` (a number). */
  predicate WellShaped(post: Post) {
    && "title" in post && "published" in post
    && forall k :: k in post ==> SameKind(post[k], KindOf(k))
  }

  lemma AssembleShape(path: string, fields: map<string, string>, body: string)
    requires "title" in fields && Assemble(path, fields, body).Ok?
    ensures WellShaped(Assemble(path, fields, body).value)
  {
    AssembleSpec(path, fields, body);
    var post := Assemble(path, fields, body).value;
    TitleKeysNotDerived();
    DerivedKeysDistinct();
    forall k | k in post
      ensures SameKind(post[k], KindOf(k))
    {
      if k !in Derived {
        assert post[k] == Str(fields[k]);
      }
    }
  }

  /** A post `parse_post` returns is well shaped. */
  lemma ParsedPostShape(path: string, file: Option<string>, lib: Foreign)
    requires PostFromFile(path, file, lib).Ok?
    ensures WellShaped(PostFromFile(path, file, lib).value)
  {
    var lines := Lines(file.value);
    var init := InitialFields(RawTitle(lines), lib);
    MetaKeys(init, HeaderEntries(lines, lib.lower), "title");
    AssembleShape(path, HeaderFields(lines, lib), Body(lines, lib));
  }

  lemma DerivedKeysDistinct()
    ensures "body" != "published" && "body" != "year"
    ensures "slug" != "published" && "slug" != "year"
    ensures "url" != "published" && "url" != "year"
    ensures "published" != "year"
  {
    assert |"body"| == 4 && |"slug"| == 4 && |"url"| == 3 && |"published"| == 9 && |"year"| == 4;
    assert "body"[0] != "year"[0] && "slug"[0] != "year"[0];
  }

  /** Well-shaped posts can be sorted by any key they all have; in particular
      by `title` and by `published`, as the alphabetical, chronological and
      monthly pages do. */
  lemma WellShapedSortable(posts: seq<Post>, sortKey: string, reverse: bool)
    requires forall i :: 0 <= i < |posts| ==> WellShaped(posts[i])
    ensures SortPosts(posts, sortKey, reverse).Ok? <==> |posts| < 2 || forall i :: 0 <= i < |posts| ==> sortKey in posts[i]
    ensures sortKey == "title" || sortKey == "published" ==> SortPosts(posts, sortKey, reverse).Ok?
  {
  }

  /** Every post of a successful list comprehension over `parse_post` is well shaped. */
  lemma ParsedPostsWellShaped(paths: seq<string>, disk: map<string, string>, lib: Foreign)
    requires ParseAll(paths, Parser(disk, lib)).Ok?
    ensures forall i :: 0 <= i < |ParseAll(paths, Parser(disk, lib)).value|
              ==> WellShaped(ParseAll(paths, Parser(disk, lib)).value[i])
  {
    var posts := ParseAll(paths, Parser(disk, lib)).value;
    ParseAllSpec(paths, Parser(disk, lib));
    forall i | 0 <= i < |posts|
      ensures WellShaped(posts[i])
    {
      ParsedPostShape(paths[i], FileAt(disk, paths[i]), lib);
    }
  }
}
