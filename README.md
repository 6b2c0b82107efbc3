# wanja, modelled in Dafny

wanja is a small Flask blog. Posts are Markdown files under
`posts/YYYY/MM/DD/<slug>.md`. The file's first line is the title, the second
line is ignored, and `key: value` metadata lines follow up to the first blank
line; the rest is the body. Six handlers serve the front page, an
alphabetical index, a chronological index, a month archive, a single post
and an RSS feed. All six share an ETag/response cache kept in two
module-level dictionaries.

This project models that core and proves properties of the model:

- `text.dfy` (module `Text`): the Python string operations the blog
  relies on. These are `str.strip` with Python's exact whitespace set,
  `partition`, `split`/`join`, `os.path.basename`, `os.path.join`,
  `readline` over a text, and zero-padded decimal formatting.
- `datetimes.dfy` (module `DateTimes`): `parse_datetime`, with the two
  `strptime` formats, and the texts `strftime` writes, used as its partners.
- `posts.dfy` (module `Posts`): `first_alpha_char`, `get_slug_from_path`,
  `get_post_url`, the single-post route, and `parse_post`.
  `parse_post` is both a method with the source's loop over the header
  lines and the function that specifies it.
- `sorting.dfy` (module `Sorting`): Python's stable `sorted(...,
  reverse=...)`, specified by insertion, and Python's string order.
- `selection.dfy` (module `Selection`): `most_recent_posts`,
  `get_posts_in_folder` (the directory walk, the slice, the two sorts, the
  list of parsed posts) and `sort_posts`, including when Python's
  comparison raises `TypeError`.
- `cache.dfy` (module `ResponseCache`): the handler prologue (304 or cached
  response) and epilogue (MD5 tag, `setdefault` into `etags` and `cache`).
  It is a class over the two dictionaries, with a pure step function
  beside it.
- `routes.dfy` (module `Routes`): what each of the six handlers renders on
  a cache miss, and the whole handler.

The file system, the configuration, the templates, Markdown, SmartyPants,
`str.lower`/`upper`/`isalpha` and MD5 are parameters (the `Foreign` record
in `Posts`, and the `Site` record in `Routes`).

Some of the code's behaviour differs from what its routes and date format suggest. The model follows the code:

- A `published` value with an uppercase `AM`/`PM` and no lowercase `m` goes
  to the 24-hour format, and `parse_datetime` fails on it
  (`DateTimes.UppercaseMeridiemRejected`).
- A single post whose file is missing gives 500, not 404. `parse_post`
  raises before the `if _post:` test, and the post it returns is never
  empty, so the `abort(404)` at wanja.py:196 cannot be reached
  (`Routes.SinglePostNever404`).
- `sort_posts` has no policy for a missing key: Python raises `TypeError`
  when it has to compare `None` or two kinds of value. With two or more
  posts a sort compares every pair it places side by side, so the model's
  `SortPosts` fails exactly when there are two or more posts and some post
  lacks the key or the keys are of different kinds.
- The cache key is the raw request path, so `/2019/3/` and `/2019/03/` are
  cached separately.

## Model

| member | source | states |
|---|---|---|
| Text.TrimStartSpec | wanja.py:75 | `lstrip` removes exactly a leading run of Python whitespace and stops at the first other character |
| Text.TrimEndSpec | wanja.py:75 | `rstrip` removes exactly a trailing run of Python whitespace and stops at the last other character |
| Text.StripSpec | wanja.py:81-83 | `strip()` is empty exactly when the line is all whitespace (the header's end test); otherwise it starts and ends with non-space and is a slice of the line with only whitespace around it |
| Text.Partition | wanja.py:85 | `partition(':')` splits at the first colon: the parts around the separator give back the text, and the part before holds no colon |
| Text.Basename | wanja.py:55 | `os.path.basename` is the suffix after the last '/', and holds no '/' |
| Text.BasenameAfterSlash | wanja.py:55 | the basename of `dir + "/" + name` is `name` when `name` holds no '/' |
| Text.JoinPath | wanja.py:22 | `os.path.join(root, fn)` is `fn` when `fn` is absolute; otherwise it is `root` followed by `fn`, with one '/' inserted between them unless `root` is empty or already ends in '/' |
| Text.LineLength | wanja.py:75 | one `readline()` takes up to and including the first newline, or the rest of the text |
| Text.ConcatLines | wanja.py:74-87 | the successive `readline()` results put back together are the whole text |
| Text.LinesShape | wanja.py:75-81 | every line but the last ends in a newline, and no line holds a newline before its end |
| Text.SplitJoin | wanja.py:60 | joining the pieces of a split with the separator gives back the text |
| Text.JoinSplit | wanja.py:60 | splitting a join of separator-free pieces gives back the pieces |
| Text.Decimal | wanja.py:60 | `str(n)` is a numeral without leading zeros that reads back as n |
| Text.Pad | wanja.py:60 | `'{:02}'` formatting reads back as n and has exactly the width when n fits in it, more digits otherwise |
| DateTimes.DaysInMonth | wanja.py:51 | the month lengths `strptime` checks days against: always 28 to 31 days |
| DateTimes.DaysInMonthSpec | wanja.py:51 | February has 29 days exactly in leap years (28 otherwise), April, June, September and November 30, the other months 31 |
| DateTimes.ParseDateTime | wanja.py:47-51 | a parsed value is a valid date-time, and the 12-hour format (21 characters) was used exactly when the text holds a lowercase 'm' |
| DateTimes.Format24RoundTrip | wanja.py:47-51 | the 24-hour text of every valid date-time parses back to it |
| DateTimes.Format12LowerRoundTrip | wanja.py:49-51 | the 12-hour text with a lowercase marker parses back to the same date-time |
| DateTimes.UppercaseMeridiemRejected | wanja.py:49-51 | the 12-hour text with an uppercase `AM`/`PM` (what `strftime('%p')` writes) is rejected |
| DateTimes.ParsedIsRendered | wanja.py:47-51 | a text `parse_datetime` accepts is the rendering of the date-time it returns: the 24-hour text when it holds no 'm', else the 12-hour text with a lowercase marker, up to the case of the a/p letter |
| DateTimes.ParseDateTimeIff | wanja.py:47-51 | `parse_datetime` returns a date-time exactly when the text renders it in the format the 'm' test picks |
| DateTimes.RejectedIff | wanja.py:47-51 | `parse_datetime` raises `ValueError` exactly when the text renders no valid date-time |
| DateTimes.ClockHourOfHour12 | wanja.py:50 | `%I` with `%p` gives back the 24-hour hour |
| DateTimes.LayoutExtends | wanja.py:50 | characters after the first 19 do not change the date and time fields read |
| Posts.FirstAlphaIndex | wanja.py:66-68 | the scan stops at the first alphabetic character, with none before it, and finds none exactly when there is none |
| Posts.FirstAlphaChar | wanja.py:63-69 | '' for an empty title; the first alphabetic character when there is one; otherwise the first character |
| Posts.SlugFromPath | wanja.py:54-55 | the slug holds no '/', and for a `.md` path the basename is the slug followed by `.md` |
| Posts.BasenameOfSuffix | wanja.py:55 | a path ending in a '/'-free suffix has a basename ending in that suffix |
| Posts.SlugOfPostSourcePath | wanja.py:187-189 | the slug read back from the file the single-post handler opens is the requested slug |
| Posts.PostUrlMatchesRoute | wanja.py:58-60 | the URL of a post matches the single-post route with the post's own year, month, day and slug |
| Posts.PostUrlLeadsBack | wanja.py:176-192 | a post read for (y, m, d, slug) and published that day has a URL routing back to the same (y, m, d, slug) |
| Posts.HeaderEnd | wanja.py:80-83 | the metadata loop stops at the first line from the third on whose `strip()` is empty (or at the end of the file); every line before it is non-blank |
| Posts.HeaderLines | wanja.py:80-83 | the metadata lines are exactly the stripped lines from the third up to the blank line, none of them empty |
| Posts.MetaEntry | wanja.py:84-86 | a line yields a field exactly when it contains a colon |
| Posts.MetaEntrySplitsAtFirstColon | wanja.py:85-86 | the key is the lowercased, stripped text before the first colon and the value the stripped text after it |
| Posts.MetaLastWins | wanja.py:86 | the last line naming a key sets its value |
| Posts.MetaUntouched | wanja.py:86 | a key no line names keeps its initial presence and value |
| Posts.MetaKeys | wanja.py:86 | the loop adds exactly the keys its lines name |
| Posts.ColonlessLineIgnored | wanja.py:84 | removing a line without a colon changes no field |
| Posts.AssembleSpec | wanja.py:87-93 | the post fails exactly when `published` is missing or unreadable; otherwise `body`, `slug`, `published`, `year` and `url` are derived and win over metadata, and every other field is the header's string |
| Posts.Derive | wanja.py:88-92 | the derived fields are added to the header's keys, and the header's other fields pass through |
| Posts.ParsePost | wanja.py:72-93 | the loop over the header lines computes `parse_post` as specified: a missing file fails, and otherwise title, header fields, body and derived fields are as `PostFromFile` defines them |
| Posts.SecondLineIgnored | wanja.py:79 | the second line of a file has no effect on the post |
| Posts.LaterLinesOnlyFeedBody | wanja.py:80-87 | lines after the blank line that ends the header change only the body |
| Posts.HeaderRunsToEndOfFile | wanja.py:80-83 | without a blank line, the header runs to the end of the file and the body is empty |
| Posts.BodyIsRestOfFile | wanja.py:87 | `src.read()` is exactly the text after the line that ended the header |
| Posts.HeadAndRemainder | wanja.py:87 | the lines read so far and the rest of the stream together are the whole stream |
| Posts.NoPublishedIff | wanja.py:90 | the post fails for a missing `published` exactly when no metadata line names it |
| Posts.MetadataFieldFromLastLine | wanja.py:84-93 | a non-derived field (the title among them) holds the value of the last line naming it |
| Posts.TitleFieldsDefault | wanja.py:75-78 | when no metadata line names `title` or `title_first_char`, the title is the SmartyPants-processed first line and its initial is the uppercased first letter of the raw stripped first line |
| Posts.EmptyTitleEmptyInitial | wanja.py:64-65 | an empty first line (with no `title` or `title_first_char` line) gives an empty `title_first_char`, given that upper-casing '' gives '' |
| Sorting.FlipIsStrictTotalOrder | wanja.py:23 | comparing with the sides swapped (`reverse=True`) is again a strict total order |
| Sorting.SortPermutes | wanja.py:44 | `sorted` returns a permutation of its input |
| Sorting.SortSorted | wanja.py:44 | `sorted` returns its input in order |
| Sorting.SortStable | wanja.py:44 | `sorted` is stable: for every key, the elements with that key keep their input order |
| Sorting.SortOfSorted | wanja.py:28 | sorting what is already sorted changes nothing |
| Sorting.SortedPrefix | wanja.py:27 | a prefix of a sorted list is sorted, and nothing left out sorts before something kept |
| Sorting.StrLessIsStrictTotalOrder | wanja.py:23 | Python's code-point order on strings is a strict total order |
| Selection.MarkdownInMembers | wanja.py:19-22 | a directory contributes exactly the joins of its file names that end in `.md` |
| Selection.MarkdownPathsMembers | wanja.py:18-22 | a path is collected exactly when one of the walk's directories contributes it |
| Selection.MarkdownPathsEndInMd | wanja.py:20-22 | every collected path ends in `.md` |
| Selection.CollectMarkdownPaths | wanja.py:16-22 | the nested loops over the walk collect the `.md` paths in walk order |
| Selection.Descending | wanja.py:23 | the descending sort keeps the number of paths |
| Selection.DescendingSpec | wanja.py:23 | `all_paths.sort(reverse=True)` is a permutation in descending string order |
| Selection.NewestPathsSpec | wanja.py:23-28 | `most_recent_posts` parses the first `limit` paths of the descending order (all for 0 or no limit, Python slice rules for a negative limit), in that order: no path left out sorts after one kept |
| Selection.NewestPathsFromInput | wanja.py:23-28 | the paths parsed are among the collected paths |
| Selection.ParseAllSpec | wanja.py:28 | the list of parsed posts exists exactly when every path parses, and then holds each path's post at its position |
| Selection.FirstFailure | wanja.py:28 | when a path fails, the failure reported is that of the first path that fails |
| Selection.ParseOne | wanja.py:28 | one `parse_post` call on the file at a path |
| Selection.ParseAllSnoc | wanja.py:28 | one more path extends the list or ends it with that path's failure |
| Selection.ParseAllErrAppend | wanja.py:28 | once the list comprehension fails, the paths after do not change the failure |
| Selection.ParseAllStep | wanja.py:28 | one turn of the comprehension extends the list or ends it with the failure |
| Selection.ParseEach | wanja.py:28 | the comprehension, one `parse_post` after another, equals the specification |
| Selection.MostRecentPosts | wanja.py:15-28 | the method computes the posts of the newest paths, or the first failure |
| Selection.GetPostsInFolder | wanja.py:31-38 | the method computes the posts of the folder's `.md` files in walk order, or the first failure |
| Selection.BeforeTotal | wanja.py:44 | two different date-times are ordered one way or the other |
| Selection.KeyLessIsStrictTotalOrder | wanja.py:41-44 | the order on keys (Python's `<` within one kind) is a strict total order |
| Selection.SortPostsSpec | wanja.py:41-44 | `sort_posts` fails exactly for two or more posts whose keys are missing or of mixed kinds; otherwise it returns a permutation, ordered by the key (descending for `reverse`), with equal keys in input order |
| Selection.AssembleShape | wanja.py:87-92 | a post built from a header with a title has a title, a date `published`, an integer `year`, and strings elsewhere |
| Selection.ParsedPostShape | wanja.py:72-93 | every post `parse_post` returns has a title, a date `published`, an integer `year`, and strings elsewhere |
| Selection.WellShapedSortable | wanja.py:125 | posts of that shape can be sorted by any key they all have, and always by `title` and `published` |
| Selection.ParsedPostsWellShaped | wanja.py:28 | every post in a successful list of parsed posts has that shape |
| ResponseCache.NotModifiedIff | wanja.py:98-103 | 304 is answered exactly when a tag is stored for the path and the client's `If-None-Match` equals it; the state is then unchanged |
| ResponseCache.StepKeepsCoherent | wanja.py:98-112 | every request keeps `etags` and `cache` coherent: same paths, and each tag is the page's tag and the digest of its text |
| ResponseCache.ServedPageTagged | wanja.py:108-112 | a served page's tag is the digest of its text; on a miss with a rendered page both dictionaries gain the path, with that page and its digest, and the reply is the stored page |
| ResponseCache.RepeatServesSame | wanja.py:98-112 | after a request is served a page, the next request for the same path gets that same page or 304, whatever the handler would render then |
| ResponseCache.StepOnlyAdds | wanja.py:110-112 | `setdefault` only adds entries, and only for the request's path; a stored tag or page never changes |
| ResponseCache.AbortStoresNothing | wanja.py:165-166 | an aborted page stores nothing and answers with its status |
| ResponseCache.CachedPathAnswered | wanja.py:98-105 | a cached path is answered with the cached page, or 304 when the client sends its tag, whatever the page would render now |
| ResponseCache.RunKeepsPage | wanja.py:98-112 | over any sequence of requests the dictionaries stay coherent, and every request for a cached path gets the cached page or 304 |
| ResponseCache.Cache.constructor | wanja.py:11-12 | both dictionaries start empty |
| ResponseCache.Cache.Lookup | wanja.py:98-105 | the prologue answers 304, the cached page, or nothing, as the step specifies, and changes nothing |
| ResponseCache.Cache.Store | wanja.py:108-112 | the epilogue digests the text, `setdefault`s the tag and the page, and answers with the stored page; an abort stores nothing |
| Routes.NewestPosts | wanja.py:106 | the front page's `most_recent_posts` call on the posts directory computes the specified posts |
| Routes.RenderMonth | wanja.py:163-168 | the month handler's middle is 404 for a missing directory, and otherwise the folder's posts sorted newest first |
| Routes.RenderSingle | wanja.py:186-196 | the single-post handler's middle renders the parsed post, or 500 when parsing raises |
| Routes.RenderPage | wanja.py:106-213 | the middle of each of the six handlers (front page, alphabetical and chronological indexes, month, single post, RSS) computes the page `Render` specifies |
| Routes.Handle | wanja.py:96-216 | a whole handler answers and updates the dictionaries exactly as one cache step with that handler's page |
| Routes.IndexesFailOnlyOnParse | wanja.py:115-173 | the alphabetical, chronological and existing-month pages abort only with 500, and exactly when a post does not parse: their sort never fails |
| Routes.MonthMissingIs404 | wanja.py:163-166 | a month page is 404 exactly when its directory does not exist |
| Routes.EmptyMonthListed | wanja.py:163-168 | an existing month with no posts renders an empty list |
| Routes.SinglePostNever404 | wanja.py:186-196 | a single-post page is 500 when its file is missing or does not parse, and the rendered post otherwise; never 404 |
| Routes.OnlyRssIsRss | wanja.py:209-215 | the RSS feed is the only page served as `application/rss+xml` |
| Routes.RssAtMostTwenty | wanja.py:209 | the RSS feed lists at most 20 posts |

## Left out

- Flask itself (routing, request parsing, `Response` objects, the headers other than `ETag` and `Content-Type`, `debug=True`, `main`) is not modelled. A handler is selected by a `Route` value, and the integer converters of the URL rules are taken to deliver natural numbers.
- `If-None-Match` is compared as one exact string, as the code does. Lists of tags, weak tags and `*` are not interpreted.
- Concurrency is not modelled. The two dictionaries are updated by one request at a time. Under concurrent requests, `setdefault` could keep one request's tag and another's page; the model does not capture this.
- File I/O is not modelled: the directory walk, `os.path.exists` and the files' texts are inputs (`Site.walk`, `Site.dirs`, `Site.disk`). The walk order is whatever the input lists. A file that cannot be read is a missing file.
- Line endings: `codecs` splits lines at `\r`, `\x0b`, `\x0c`, `\x1c`-`\x1e`, `\x85`, ` ` and ` ` as well as `\n`. The model ends a line only at `\n`.
- `strptime` leniency is not modelled: one-digit fields, whitespace matched as `\s+`, and non-ASCII digits. The model reads fixed-width ASCII fields. `%p` is matched without regard to case, as in `strptime`, once a lowercase `m` has chosen the 12-hour format.
- `str.lower`, `str.upper`, `str.isalpha`, Markdown, SmartyPants, `flask.Markup` and Jinja templates are uninterpreted parameters. MD5 is a parameter too.
- `most_recent_posts`' default `limit=1` is not used by any handler. Every caller passes the limit, which the model takes as an optional integer (`None` when the configuration lacks it).
- Sorting by `record.get(key)`: Python compares `flask.Markup` titles and plain strings alike, by code point. The model's ranking across kinds and of missing keys is arbitrary and only serves to make the order total, because `SortPosts` fails on such inputs before using it.
- Selection.SortPostsSpec: the conditions under which `sorted` raises `TypeError` are modelled by the argument that every sort compares each pair it places side by side. The timsort comparison sequence itself is not modelled.
