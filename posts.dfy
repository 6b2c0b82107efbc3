/** One blog post read from its source file (`parse_post` and the helpers it
    calls, wanja.py:47-93): the title line, a discarded second line, a block
    of `key: value` metadata lines ended by a blank line, and a Markdown body. */
module Posts {
  import opened Wrappers
  import opened Text
  import opened DateTimes

  /** A value stored in a post record. */
  datatype Value = Str(text: string) | Date(at: DateTime) | Int(number: int)

  /** A parsed post: the dictionary `_post`, from field name to value. */
  type Post = map<string, Value>

  /** The code outside the repository that `parse_post` calls, left uninterpreted. */
  datatype Foreign = Foreign(
    isAlpha: char -> bool,         // str.isalpha on one character
    upper: string -> string,       // str.upper
    lower: string -> string,       // str.lower
    smartypants: string -> string, // smartypants.smartypants
    markdown: string -> string)    // markdown.markdown

  /** Why `parse_post` raises. */
  datatype ParseError =
    | FileMissing(path: string)  // codecs.open cannot open the file
    | NoPublished                // _post['published'] raises KeyError
    | BadPublished(text: string) // strptime raises ValueError

  // ---------------------------------------------------------------------------
  // Title initial (first_alpha_char, wanja.py:63-69)

  predicate HasAlpha(s: string, isAlpha: char -> bool) {
    exists j :: 0 <= j < |s| && isAlpha(s[j])
  }

  /** The position of the first character of s that is alphabetic, if any. */
  function FirstAlphaIndex(s: string, isAlpha: char -> bool): (r: Option<nat>)
    ensures r.Some? ==> r.value < |s| && isAlpha(s[r.value]) && !HasAlpha(s[..r.value], isAlpha)
    ensures r.None? <==> !HasAlpha(s, isAlpha)
  {
    if s == [] then None
    else if isAlpha(s[0]) then
      assert s[..0] == [];
      Some(0)
    else
      match FirstAlphaIndex(s[1..], isAlpha)
      case None =>
        assert !HasAlpha(s, isAlpha) by {
          forall j | 0 <= j < |s| ensures !isAlpha(s[j]) {
            if j > 0 { assert s[j] == s[1..][j - 1]; }
          }
        }
        None
      case Some(i) =>
        assert s[1..][i] == s[i + 1];
        assert forall j :: 0 < j < i + 1 ==> s[j] == s[1..][..i][j - 1];
        assert forall j :: 0 <= j < i + 1 ==> s[..i + 1][j] == s[j];
        Some(i + 1)
  }

  /** `first_alpha_char(s)`: '' for an empty s, else the first alphabetic
      character of s, else the first character of s. */
  function FirstAlphaChar(s: string, isAlpha: char -> bool): (r: string)
    ensures s == [] ==> r == []
    ensures HasAlpha(s, isAlpha) ==>
              exists i :: 0 <= i < |s| && isAlpha(s[i]) && !HasAlpha(s[..i], isAlpha) && r == [s[i]]
    ensures s != [] && !HasAlpha(s, isAlpha) ==> r == [s[0]]
  {
    if s == [] then []
    else
      match FirstAlphaIndex(s, isAlpha)
      case Some(i) => [s[i]]
      case None => [s[0]]
  }

  // ---------------------------------------------------------------------------
  // Slug and URL (get_slug_from_path, get_post_url, wanja.py:54-60)

  /** `get_slug_from_path(path)`: the basename with its last three characters
      dropped (nothing is left of a basename shorter than that). For a `.md`
      file the slug is the file name without the extension. */
  function SlugFromPath(path: string): (slug: string)
    ensures '/' !in slug
    ensures EndsWith(path, ".md") ==> Basename(path) == slug + ".md"
  {
    var name := Basename(path);
    assert EndsWith(path, ".md") ==> EndsWith(name, ".md") by {
      if EndsWith(path, ".md") {
        BasenameOfSuffix(path, ".md");
      }
    }
    if |name| >= 3 then
      NotInPrefix(name, |name| - 3, '/');
      assert EndsWith(name, ".md") ==> name == name[..|name| - 3] + ".md" by {
        if EndsWith(name, ".md") {
          DropSuffix(name, ".md");
        }
      }
      name[..|name| - 3]
    else []
  }

  /** A basename covers every '/'-free suffix of the path. */
  lemma {:induction false} BasenameOfSuffix(path: string, suffix: string)
    requires EndsWith(path, suffix) && '/' !in suffix
    ensures EndsWith(Basename(path), suffix)
    decreases |suffix|
  {
    if suffix != [] {
      var c := suffix[|suffix| - 1];
      var shorter := suffix[..|suffix| - 1];
      var front := path[..|path| - 1];
      assert c in suffix;
      assert path == front + [c];
      assert suffix == shorter + [c];
      assert '/' !in shorter;
      assert front[|front| - |shorter|..] == shorter;
      BasenameOfSuffix(front, shorter);
      var b := Basename(front);
      assert Basename(path) == b + [c];
      var k := |b| - |shorter|;
      assert b[k..] == shorter;
      assert (b + [c])[k..] == b[k..] + [c];
    }
  }

  /** `get_post_url`: "/<year>/<month, 2 digits>/<day, 2 digits>/<slug>",
      the year not padded. */
  function PostUrl(published: DateTime, slug: string): string
    requires Valid(published)
  {
    JoinWith(["", Decimal(published.year), Pad(published.month, 2), Pad(published.day, 2), slug], '/')
  }

  predicate IsNumeral(s: string) {
    s != [] && AllDigits(s)
  }

  /** The route `/<int:y>/<int:m>/<int:d>/<slug>` of the single-post handler:
      the year, month, day and slug a request path selects. */
  function MatchPostRoute(path: string): Option<(nat, nat, nat, string)> {
    var parts := Split(path, '/');
    if |parts| == 5 && parts[0] == [] && IsNumeral(parts[1]) && IsNumeral(parts[2])
       && IsNumeral(parts[3]) && parts[4] != []
    then Some((DigitsValue(parts[1]), DigitsValue(parts[2]), DigitsValue(parts[3]), parts[4]))
    else None
  }

  /** The file the single-post handler opens (wanja.py:187):
      `'{}/posts/{:04}/{:02}/{:02}/{}.md'.format(root, y, m, d, slug)`. */
  function PostSourcePath(root: string, y: nat, m: nat, d: nat, slug: string): string {
    root + "/posts/" + Pad(y, 4) + "/" + Pad(m, 2) + "/" + Pad(d, 2) + "/" + slug + ".md"
  }

  /** The directory the month handler lists (wanja.py:164). */
  function MonthPath(root: string, y: nat, m: nat): string {
    root + "/posts/" + Pad(y, 4) + "/" + Pad(m, 2)
  }

  lemma NumeralHasNoSlash(s: string)
    requires AllDigits(s)
    ensures '/' !in s
  {
    assert forall i :: 0 <= i < |s| ==> s[i] != '/';
  }

  /** The slug read back from the file the single-post handler opens is the
      slug of the request, whenever that slug holds no '/'. */
  lemma {:induction false} SlugOfPostSourcePath(root: string, y: nat, m: nat, d: nat, slug: string)
    requires '/' !in slug
    ensures SlugFromPath(PostSourcePath(root, y, m, d, slug)) == slug
  {
    var dir := root + "/posts/" + Pad(y, 4) + "/" + Pad(m, 2) + "/" + Pad(d, 2);
    var name := slug + ".md";
    assert '/' !in name by {
      assert forall i :: 0 <= i < |slug| ==> name[i] == slug[i];
    }
    assert PostSourcePath(root, y, m, d, slug) == dir + "/" + name;
    BasenameAfterSlash(dir, name);
    assert name[..|name| - 3] == slug;
  }

  /** The URL of a post leads back to the single-post route with the post's
      own year, month, day and slug. */
  lemma {:induction false} PostUrlMatchesRoute(published: DateTime, slug: string)
    requires Valid(published) && slug != [] && '/' !in slug
    ensures MatchPostRoute(PostUrl(published, slug))
            == Some((published.year as nat, published.month as nat, published.day as nat, slug))
  {
    var parts := ["", Decimal(published.year), Pad(published.month, 2), Pad(published.day, 2), slug];
    NumeralHasNoSlash(parts[1]);
    NumeralHasNoSlash(parts[2]);
    NumeralHasNoSlash(parts[3]);
    JoinSplit(parts, '/');
  }

  // ---------------------------------------------------------------------------
  // The header block (wanja.py:75-86)

  /** What the n-th `readline()` returns: the line, or '' past the end of the file. */
  function LineAt(lines: seq<string>, n: nat): string {
    if n < |lines| then lines[n] else []
  }

  /** The line at which the metadata loop that starts at line i stops: the
      first one from i on that is blank after stripping, or the end of the file. */
  function HeaderEnd(lines: seq<string>, i: nat): (j: nat)
    ensures i <= j && (j == i || j <= |lines|)
    ensures forall k :: i <= k < j ==> Strip(LineAt(lines, k)) != []
    ensures Strip(LineAt(lines, j)) == []
    decreases |lines| - i
  {
    if i >= |lines| || Strip(LineAt(lines, i)) == [] then i else HeaderEnd(lines, i + 1)
  }

  /** The stripped metadata lines, from the third line up to the line that ends the block. */
  function HeaderLines(lines: seq<string>): (metas: seq<string>)
    ensures |metas| == HeaderEnd(lines, 2) - 2
    ensures forall k :: 0 <= k < |metas| ==> metas[k] == Strip(LineAt(lines, k + 2)) && metas[k] != []
  {
    var end := HeaderEnd(lines, 2);
    seq(end - 2, k requires 0 <= k < end - 2 => Strip(LineAt(lines, k + 2)))
  }

  /** What `read()` returns once the loop has consumed the line at `end`. */
  function Remainder(lines: seq<string>, end: nat): string {
    if end < |lines| then Concat(lines[end + 1..]) else []
  }

  /** The key and value a stripped metadata line contributes: none without a
      colon; otherwise the text before the first colon, lowercased and
      stripped, and the stripped text after it. */
  function MetaEntry(meta: string, lower: string -> string): (entry: Option<(string, string)>)
    ensures entry.None? <==> ':' !in meta
  {
    if ':' in meta then
      var (key, value) := Partition(meta, ':');
      Some((Strip(lower(key)), Strip(value)))
    else None
  }

  /** The entries of a sequence of stripped metadata lines, in order. */
  function MetaEntries(metas: seq<string>, lower: string -> string): (es: seq<Option<(string, string)>>)
    ensures |es| == |metas|
    ensures forall k :: 0 <= k < |metas| ==> es[k] == MetaEntry(metas[k], lower)
  {
    seq(|metas|, k requires 0 <= k < |metas| => MetaEntry(metas[k], lower))
  }

  /** The entry assigns `key`. */
  predicate Names(e: Option<(string, string)>, key: string) {
    e.Some? && e.value.0 == key
  }

  /** One turn of the metadata loop: `_post[key] = value` for a line with a colon. */
  function ApplyEntry(fields: map<string, string>, e: Option<(string, string)>): map<string, string> {
    match e
    case None => fields
    case Some((key, value)) => fields[key := value]
  }

  /** The fields after the metadata loop has run over the entries `es`, in order. */
  function ReadEntries(fields: map<string, string>, es: seq<Option<(string, string)>>): map<string, string> {
    if es == [] then fields
    else ApplyEntry(ReadEntries(fields, es[..|es| - 1]), es[|es| - 1])
  }

  /** A line is split at its first colon only: the value keeps any later colons. */
  lemma MetaEntrySplitsAtFirstColon(before: string, after: string, lower: string -> string)
    requires ':' !in before
    ensures MetaEntry(before + ":" + after, lower) == Some((Strip(lower(before)), Strip(after)))
  {
    IndexAfter(before, ':', after);
    var meta := before + ":" + after;
    assert meta[..|before|] == before && meta[|before| + 1..] == after;
  }

  /** A repeated key keeps the value of its last entry. */
  lemma {:induction false} MetaLastWins(fields: map<string, string>, es: seq<Option<(string, string)>>,
                                        i: nat, key: string, value: string)
    requires i < |es| && es[i] == Some((key, value))
    requires forall j :: i < j < |es| ==> !Names(es[j], key)
    ensures key in ReadEntries(fields, es) && ReadEntries(fields, es)[key] == value
  {
    var init := es[..|es| - 1];
    if i < |es| - 1 {
      assert !Names(es[|es| - 1], key);
      assert init[i] == es[i];
      assert forall j :: i < j < |init| ==> init[j] == es[j];
      MetaLastWins(fields, init, i, key, value);
    }
  }

  /** A key no entry names keeps its value from before the loop (or stays absent). */
  lemma {:induction false} MetaUntouched(fields: map<string, string>, es: seq<Option<(string, string)>>, key: string)
    requires forall j :: 0 <= j < |es| ==> !Names(es[j], key)
    ensures (key in ReadEntries(fields, es)) == (key in fields)
    ensures key in fields ==> ReadEntries(fields, es)[key] == fields[key]
  {
    if es != [] {
      var init := es[..|es| - 1];
      assert !Names(es[|es| - 1], key);
      assert forall j :: 0 <= j < |init| ==> init[j] == es[j];
      MetaUntouched(fields, init, key);
    }
  }

  /** The loop adds exactly the keys its entries name. */
  lemma {:induction false} MetaKeys(fields: map<string, string>, es: seq<Option<(string, string)>>, key: string)
    ensures key in ReadEntries(fields, es) <==> key in fields || exists j :: 0 <= j < |es| && Names(es[j], key)
  {
    if es != [] {
      var init := es[..|es| - 1];
      MetaKeys(fields, init, key);
      assert forall j :: 0 <= j < |init| ==> init[j] == es[j];
      if exists j :: 0 <= j < |es| && Names(es[j], key) {
        var j :| 0 <= j < |es| && Names(es[j], key);
        if j < |init| {
          assert Names(init[j], key);
        }
      }
    }
  }

  /** A line without a colon changes nothing, wherever it stands. */
  lemma {:induction false} ColonlessLineIgnored(fields: map<string, string>, es: seq<Option<(string, string)>>, i: nat)
    requires i < |es| && es[i].None?
    ensures ReadEntries(fields, es[..i] + es[i + 1..]) == ReadEntries(fields, es)
  {
    var init := es[..|es| - 1];
    if i == |es| - 1 {
      assert es[..i] + es[i + 1..] == init;
    } else {
      var shorter := es[..i] + es[i + 1..];
      assert shorter[..|shorter| - 1] == init[..i] + init[i + 1..];
      assert shorter[|shorter| - 1] == es[|es| - 1];
      assert init[i] == es[i];
      ColonlessLineIgnored(fields, init, i);
    }
  }

  // ---------------------------------------------------------------------------
  // The post record (wanja.py:72-93)

  /** The fields `parse_post` sets before the metadata loop. */
  function InitialFields(rawTitle: string, lib: Foreign): map<string, string> {
    map["title" := lib.smartypants(rawTitle),
        "title_first_char" := lib.upper(FirstAlphaChar(rawTitle, lib.isAlpha))]
  }

  /** The stripped first line. */
  function RawTitle(lines: seq<string>): string {
    Strip(LineAt(lines, 0))
  }

  /** The string fields of `_post` once the metadata loop has finished. */
  function HeaderFields(lines: seq<string>, lib: Foreign): map<string, string> {
    ReadEntries(InitialFields(RawTitle(lines), lib), HeaderEntries(lines, lib.lower))
  }

  /** The entries of the header's metadata lines. */
  function HeaderEntries(lines: seq<string>, lower: string -> string): seq<Option<(string, string)>> {
    MetaEntries(HeaderLines(lines), lower)
  }

  /** The fields `parse_post` assigns after the metadata loop; they replace
      any metadata of the same name. */
  const Derived: set<string> := {"body", "slug", "published", "year", "url"}

  /** Everything `parse_post` does after the metadata loop: set the body and
      the slug, parse `published`, then set the year and the URL. */
  function Assemble(path: string, fields: map<string, string>, body: string): Result<Post, ParseError> {
    // `body` and `slug` are stored before 'published' is looked up; neither touches that key.
    if "published" !in fields then Err(NoPublished)
    else
      match ParseDateTime(fields["published"])
      case None => Err(BadPublished(fields["published"]))
      case Some(dt) => Ok(Derive(path, fields, body, dt))
  }

  /** `parse_post` fails exactly when `published` is absent or unreadable;
      otherwise the derived fields always win and every other field is the
      string the header left. */
  lemma AssembleSpec(path: string, fields: map<string, string>, body: string)
    ensures "published" !in fields ==> Assemble(path, fields, body) == Err(NoPublished)
    ensures "published" in fields && ParseDateTime(fields["published"]).None?
            ==> Assemble(path, fields, body) == Err(BadPublished(fields["published"]))
    ensures "published" in fields && ParseDateTime(fields["published"]).Some? ==>
              var dt := ParseDateTime(fields["published"]).value;
              var slug := SlugFromPath(path);
              && Assemble(path, fields, body).Ok?
              && Assemble(path, fields, body).value.Keys == fields.Keys + Derived
              && Assemble(path, fields, body).value["body"] == Str(body)
              && Assemble(path, fields, body).value["slug"] == Str(slug)
              && Assemble(path, fields, body).value["published"] == Date(dt)
              && Assemble(path, fields, body).value["year"] == Int(dt.year)
              && Assemble(path, fields, body).value["url"] == Str(PostUrl(dt, slug))
              && forall k :: k in fields && k !in Derived ==> Assemble(path, fields, body).value[k] == Str(fields[k])
  {
  }

  /** The dictionary's string fields as post values. */
  function StrFields(fields: map<string, string>): (post: Post)
    ensures post.Keys == fields.Keys
    ensures forall k :: k in fields ==> post[k] == Str(fields[k])
  {
    map k | k in fields :: Str(fields[k])
  }

  /** The assignments after the metadata loop, in source order. */
  function Derive(path: string, fields: map<string, string>, body: string, dt: DateTime): (post: Post)
    requires Valid(dt)
    ensures post.Keys == fields.Keys + Derived
    ensures forall k :: k in fields && k !in Derived ==> post[k] == Str(fields[k])
  {
    var slug := SlugFromPath(path);
    StrFields(fields)["body" := Str(body)]["slug" := Str(slug)]
      ["published" := Date(dt)]["year" := Int(dt.year)]["url" := Str(PostUrl(dt, slug))]
  }

  lemma TitleKeysNotDerived()
    ensures "title" !in Derived && "title_first_char" !in Derived
  {
    assert "title"[1] != "body"[1] && "title"[1] != "published"[1];
    assert |"title"| != |"slug"| && |"title"| != |"year"| && |"title"| != |"url"|;
    assert |"title_first_char"| !in {|"body"|, |"slug"|, |"published"|, |"year"|, |"url"|};
  }

  /** `parse_post` on a file split into its lines. */
  function PostFromLines(path: string, lines: seq<string>, lib: Foreign): Result<Post, ParseError> {
    Assemble(path, HeaderFields(lines, lib), Body(lines, lib))
  }

  /** The rendered body: everything after the header, through Markdown and SmartyPants. */
  function Body(lines: seq<string>, lib: Foreign): string {
    lib.smartypants(lib.markdown(Remainder(lines, HeaderEnd(lines, 2))))
  }

  /** `parse_post(path)` where `file` is the file's text, or None when it cannot be opened. */
  function PostFromFile(path: string, file: Option<string>, lib: Foreign): Result<Post, ParseError> {
    match file
    case None => Err(FileMissing(path))
    case Some(text) => PostFromLines(path, Lines(text), lib)
  }

  /** `parse_post`: read the title, drop the second line, fill the fields from
      the metadata lines until a blank line or the end of the file, then
      convert the rest of the file and derive the remaining fields. */
  method ParsePost(path: string, file: Option<string>, lib: Foreign) returns (r: Result<Post, ParseError>)
    ensures r == PostFromFile(path, file, lib)
  {
    if file.None? {
      return Err(FileMissing(path));
    }
    var lines := Lines(file.value);
    var rawTitle := Strip(LineAt(lines, 0));
    var fields := map["title" := lib.smartypants(rawTitle)];
    fields := fields["title_first_char" := lib.upper(FirstAlphaChar(rawTitle, lib.isAlpha))];
    // LineAt(lines, 1) is read and dropped.
    ghost var es := HeaderEntries(lines, lib.lower);
    ghost var end := HeaderEnd(lines, 2);
    var i := 2;
    while true
      invariant 2 <= i <= end
      invariant fields == ReadEntries(InitialFields(rawTitle, lib), es[..i - 2])
      decreases end - i
    {
      var meta := Strip(LineAt(lines, i));
      if meta == [] {
        break;
      }
      HeaderEntryAt(lines, lib.lower, i);
      ReadEntriesStep(InitialFields(rawTitle, lib), es, i - 2);
      if ':' in meta {
        var (key, value) := Partition(meta, ':');
        fields := fields[Strip(lib.lower(key)) := Strip(value)];
      }
      i := i + 1;
    }
    assert i == end;
    assert es[..i - 2] == es;
    var body := lib.smartypants(lib.markdown(Remainder(lines, i)));
    r := Assemble(path, fields, body);
  }

  /** The entry the loop reads at line i, while still inside the header. */
  lemma HeaderEntryAt(lines: seq<string>, lower: string -> string, i: nat)
    requires 2 <= i < HeaderEnd(lines, 2)
    ensures i - 2 < |HeaderEntries(lines, lower)|
    ensures HeaderEntries(lines, lower)[i - 2] == MetaEntry(Strip(LineAt(lines, i)), lower)
  {
  }

  /** One more entry read is one more turn of the fold. */
  lemma ReadEntriesStep(fields: map<string, string>, es: seq<Option<(string, string)>>, n: nat)
    requires n < |es|
    ensures ReadEntries(fields, es[..n + 1]) == ApplyEntry(ReadEntries(fields, es[..n]), es[n])
  {
    assert es[..n + 1][..n] == es[..n];
  }

  // ---------------------------------------------------------------------------
  // Properties of parse_post

  /** The second line is discarded unconditionally: replacing it changes nothing. */
  lemma SecondLineIgnored(path: string, lines: seq<string>, other: string, lib: Foreign)
    requires |lines| >= 2
    ensures PostFromLines(path, lines[1 := other], lib) == PostFromLines(path, lines, lib)
  {
    var changed := lines[1 := other];
    HeaderEndFrom(lines, changed, 2);
    HeaderLinesFrom(lines, changed);
    var end := HeaderEnd(lines, 2);
    assert LineAt(changed, 0) == LineAt(lines, 0);
    if end < |lines| {
      assert changed[end + 1..] == lines[end + 1..];
    }
    assert HeaderFields(changed, lib) == HeaderFields(lines, lib);
    assert Remainder(changed, end) == Remainder(lines, end);
  }

  /** The metadata lines only depend on the lines from the third on. */
  lemma HeaderLinesFrom(a: seq<string>, b: seq<string>)
    requires |a| == |b| && forall k :: 2 <= k < |a| ==> a[k] == b[k]
    requires HeaderEnd(a, 2) == HeaderEnd(b, 2)
    ensures HeaderLines(a) == HeaderLines(b)
  {
    var x, y := HeaderLines(a), HeaderLines(b);
    forall k | 0 <= k < |x|
      ensures x[k] == y[k]
    {
      assert LineAt(a, k + 2) == LineAt(b, k + 2);
    }
  }

  /** The end of the header only depends on the lines from where the loop starts. */
  lemma {:induction false} HeaderEndFrom(a: seq<string>, b: seq<string>, i: nat)
    requires |a| == |b| && forall k :: i <= k < |a| ==> a[k] == b[k]
    ensures HeaderEnd(a, i) == HeaderEnd(b, i)
    decreases |a| - i
  {
    if i < |a| && Strip(a[i]) != [] {
      HeaderEndFrom(a, b, i + 1);
    }
  }

  /** Once the header has ended at a blank line, further text only lengthens the body. */
  lemma {:induction false} LaterLinesOnlyFeedBody(lines: seq<string>, more: seq<string>, lib: Foreign)
    requires HeaderEnd(lines, 2) < |lines|
    ensures HeaderEnd(lines + more, 2) == HeaderEnd(lines, 2)
    ensures HeaderFields(lines + more, lib) == HeaderFields(lines, lib)
    ensures Remainder(lines + more, HeaderEnd(lines, 2)) == Remainder(lines, HeaderEnd(lines, 2)) + Concat(more)
  {
    HeaderEndPrefix(lines, more, 2);
    HeaderLinesPrefix(lines, more);
    assert LineAt(lines + more, 0) == LineAt(lines, 0);
    RemainderAppend(lines, more, HeaderEnd(lines, 2));
  }

  lemma HeaderLinesPrefix(lines: seq<string>, more: seq<string>)
    requires HeaderEnd(lines, 2) < |lines|
    requires HeaderEnd(lines + more, 2) == HeaderEnd(lines, 2)
    ensures HeaderLines(lines + more) == HeaderLines(lines)
  {
    var a, b := HeaderLines(lines + more), HeaderLines(lines);
    assert forall k :: 0 <= k < |a| ==> a[k] == b[k];
  }

  lemma RemainderAppend(lines: seq<string>, more: seq<string>, end: nat)
    requires end < |lines|
    ensures Remainder(lines + more, end) == Remainder(lines, end) + Concat(more)
  {
    assert (lines + more)[end + 1..] == lines[end + 1..] + more;
    ConcatAppend(lines[end + 1..], more);
  }

  lemma {:induction false} HeaderEndPrefix(lines: seq<string>, more: seq<string>, i: nat)
    requires i <= HeaderEnd(lines, i) < |lines|
    ensures HeaderEnd(lines + more, i) == HeaderEnd(lines, i)
    decreases |lines| - i
  {
    var all := lines + more;
    assert all[i] == lines[i];
    if Strip(lines[i]) != [] {
      HeaderEndPrefix(lines, more, i + 1);
    }
  }

  /** A file without a blank line after its title is all header: reading
      stops at the end of the file, without an error, and the body is empty. */
  lemma HeaderRunsToEndOfFile(lines: seq<string>)
    requires forall k :: 2 <= k < |lines| ==> Strip(lines[k]) != []
    ensures HeaderEnd(lines, 2) == if |lines| < 2 then 2 else |lines|
    ensures Remainder(lines, HeaderEnd(lines, 2)) == []
  {
    HeaderEndAllNonBlank(lines, 2);
  }

  lemma {:induction false} HeaderEndAllNonBlank(lines: seq<string>, i: nat)
    requires forall k :: i <= k < |lines| ==> Strip(lines[k]) != []
    ensures HeaderEnd(lines, i) == if i < |lines| then |lines| else i
    decreases |lines| - i
  {
    if i < |lines| {
      HeaderEndAllNonBlank(lines, i + 1);
    }
  }

  /** The body is exactly the text after the line that ended the header. */
  lemma BodyIsRestOfFile(text: string)
    ensures var lines := Lines(text);
            var end := HeaderEnd(lines, 2);
            Concat(lines[..if end < |lines| then end + 1 else |lines|]) + Remainder(lines, end) == text
  {
    ConcatLines(text);
    HeadAndRemainder(Lines(text), HeaderEnd(Lines(text), 2));
  }

  /** The lines up to and including the one at `end`, followed by the remainder, are all the lines. */
  lemma HeadAndRemainder(lines: seq<string>, end: nat)
    ensures Concat(lines[..if end < |lines| then end + 1 else |lines|]) + Remainder(lines, end) == Concat(lines)
  {
    var cut := if end < |lines| then end + 1 else |lines|;
    assert lines == lines[..cut] + lines[cut..];
    ConcatAppend(lines[..cut], lines[cut..]);
    if cut == |lines| {
      assert lines[cut..] == [];
    }
  }

  /** A post fails with a missing `published` exactly when no metadata line names it. */
  lemma NoPublishedIff(path: string, lines: seq<string>, lib: Foreign)
    ensures PostFromLines(path, lines, lib) == Err(NoPublished)
            <==> !exists j :: 0 <= j < |HeaderEntries(lines, lib.lower)| && Names(HeaderEntries(lines, lib.lower)[j], "published")
  {
    MetaKeys(InitialFields(RawTitle(lines), lib), HeaderEntries(lines, lib.lower), "published");
    AssembleSpec(path, HeaderFields(lines, lib), Body(lines, lib));
  }

  /** A field the header names and `parse_post` does not derive (the title
      among them) holds the value of the last line naming it. */
  lemma MetadataFieldFromLastLine(path: string, lines: seq<string>, lib: Foreign, i: nat, key: string, value: string)
    requires key !in Derived
    requires i < |HeaderEntries(lines, lib.lower)| && HeaderEntries(lines, lib.lower)[i] == Some((key, value))
    requires forall j :: i < j < |HeaderEntries(lines, lib.lower)| ==> !Names(HeaderEntries(lines, lib.lower)[j], key)
    requires PostFromLines(path, lines, lib).Ok?
    ensures key in PostFromLines(path, lines, lib).value && PostFromLines(path, lines, lib).value[key] == Str(value)
  {
    MetaLastWins(InitialFields(RawTitle(lines), lib), HeaderEntries(lines, lib.lower), i, key, value);
    AssembleSpec(path, HeaderFields(lines, lib), Body(lines, lib));
  }

  /** Without a `title` or `title_first_char` line, the title is the
      typographically enhanced first line and its initial is the uppercased
      first letter of the raw (stripped, unenhanced) first line. */
  lemma TitleFieldsDefault(path: string, lines: seq<string>, lib: Foreign)
    requires forall j :: 0 <= j < |HeaderEntries(lines, lib.lower)| ==> !Names(HeaderEntries(lines, lib.lower)[j], "title")
    requires forall j :: 0 <= j < |HeaderEntries(lines, lib.lower)| ==> !Names(HeaderEntries(lines, lib.lower)[j], "title_first_char")
    requires PostFromLines(path, lines, lib).Ok?
    ensures var post := PostFromLines(path, lines, lib).value;
            && "title" in post && post["title"] == Str(lib.smartypants(RawTitle(lines)))
            && "title_first_char" in post
            && post["title_first_char"] == Str(lib.upper(FirstAlphaChar(RawTitle(lines), lib.isAlpha)))
  {
    var init := InitialFields(RawTitle(lines), lib);
    MetaUntouched(init, HeaderEntries(lines, lib.lower), "title");
    MetaUntouched(init, HeaderEntries(lines, lib.lower), "title_first_char");
    var fields := HeaderFields(lines, lib);
    assert "title" in fields && fields["title"] == lib.smartypants(RawTitle(lines));
    assert "title_first_char" in fields
           && fields["title_first_char"] == lib.upper(FirstAlphaChar(RawTitle(lines), lib.isAlpha));
    TitleKeysNotDerived();
    AssembleSpec(path, HeaderFields(lines, lib), Body(lines, lib));
  }

  /** An empty first line gives an empty initial: `first_alpha_char('')` is
      '' and upper-casing '' gives '' (the one property of `str.upper` used). */
  lemma EmptyTitleEmptyInitial(path: string, lines: seq<string>, lib: Foreign)
    requires lib.upper([]) == []
    requires RawTitle(lines) == []
    requires forall j :: 0 <= j < |HeaderEntries(lines, lib.lower)| ==> !Names(HeaderEntries(lines, lib.lower)[j], "title")
    requires forall j :: 0 <= j < |HeaderEntries(lines, lib.lower)| ==> !Names(HeaderEntries(lines, lib.lower)[j], "title_first_char")
    requires PostFromLines(path, lines, lib).Ok?
    ensures "title_first_char" in PostFromLines(path, lines, lib).value
    ensures PostFromLines(path, lines, lib).value["title_first_char"] == Str([])
  {
    TitleFieldsDefault(path, lines, lib);
  }

  /** A post read from the file the single-post handler opens for
      (y, m, d, slug), and published on that day, has a URL that routes back
      to the same handler with the same arguments. */
  lemma PostUrlLeadsBack(root: string, y: nat, m: nat, d: nat, slug: string, file: string, lib: Foreign)
    requires slug != [] && '/' !in slug
    requires PostFromFile(PostSourcePath(root, y, m, d, slug), Some(file), lib).Ok?
    ensures var post := PostFromFile(PostSourcePath(root, y, m, d, slug), Some(file), lib).value;
            && "slug" in post && post["slug"] == Str(slug)
            && "url" in post && post["url"].Str?
            && "published" in post && post["published"].Date?
            && (post["published"].at.year == y && post["published"].at.month == m && post["published"].at.day == d
                ==> MatchPostRoute(post["url"].text) == Some((y, m, d, slug)))
  {
    var path := PostSourcePath(root, y, m, d, slug);
    SlugOfPostSourcePath(root, y, m, d, slug);
    var fields := HeaderFields(Lines(file), lib);
    AssembleSpec(path, fields, Body(Lines(file), lib));
    var dt := ParseDateTime(fields["published"]).value;
    PostUrlMatchesRoute(dt, slug);
  }
}
