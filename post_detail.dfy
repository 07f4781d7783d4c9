/**
 * The post page: finding the post for the route's slug, its related posts,
 * the table of contents scanned out of its markdown with
 * `/^(#{1,3})\s+(.*)$/gm`, and the anchor ids the h1-h3 renderers give the
 * headings. Anchor ids lower-case and hyphenate but, unlike admin slugs, do not
 * fold Turkish letters.
 */
module PostDetail {
  import opened Wrappers
  import opened Seqs
  import opened JsText
  import opened Types
  import opened Storage

  // ---------------------------------------------------------------------------
  // The post for a slug, and its related posts
  // ---------------------------------------------------------------------------

  /** `posts.find(p => p.slug === slug)`. */
  function FindBySlug(posts: seq<Post>, slug: string): (r: Option<Post>)
    ensures r.Some? ==> r.value in posts && r.value.slug == slug
  {
    if posts == [] then None
    else if posts[0].slug == slug then Some(posts[0])
    else FindBySlug(posts[1..], slug)
  }

  /** The post found is the first one with the slug, and none is found exactly when no post has it. */
  lemma {:induction false} FindBySlugFirst(posts: seq<Post>, slug: string)
    ensures FindBySlug(posts, slug).None? <==> forall i | 0 <= i < |posts| :: posts[i].slug != slug
    ensures FindBySlug(posts, slug).Some? ==>
      exists i | 0 <= i < |posts| :: posts[i] == FindBySlug(posts, slug).value
        && forall j | 0 <= j < i :: posts[j].slug != slug
  {
    if posts != [] && posts[0].slug != slug {
      FindBySlugFirst(posts[1..], slug);
      if FindBySlug(posts, slug).Some? {
        var i :| 0 <= i < |posts[1..]| && posts[1..][i] == FindBySlug(posts, slug).value
          && forall j | 0 <= j < i :: posts[1..][j].slug != slug;
        assert posts[i + 1] == FindBySlug(posts, slug).value;
        forall j | 0 <= j < i + 1 ensures posts[j].slug != slug {
          if j > 0 { assert posts[j] == posts[1..][j - 1]; }
        }
      } else {
        forall i | 0 <= i < |posts| ensures posts[i].slug != slug {
          if i > 0 { assert posts[i] == posts[1..][i - 1]; }
        }
      }
    } else if posts != [] {
      assert posts[0] == FindBySlug(posts, slug).value;
    }
  }

  /** The test "same category as `found`, other id". */
  function SameCategoryOther(found: Post): Post -> bool
  {
    (p: Post) => p.category == found.category && p.id != found.id
  }

  const RelatedLimit: nat := 3

  /** `posts.filter(same category, other id).slice(0, 3)`. */
  function RelatedPosts(posts: seq<Post>, found: Post): seq<Post>
  {
    Take(Filter(posts, SameCategoryOther(found)), RelatedLimit)
  }

  /**
   * Related posts are at most three posts of the list, in list order, each in
   * the found post's category and with another id; fewer than three only when
   * there are no more such posts.
   */
  lemma RelatedPostsShape(posts: seq<Post>, found: Post)
    ensures var r := RelatedPosts(posts, found);
      && |r| <= 3
      && IsSubsequence(r, posts)
      && (forall i | 0 <= i < |r| :: r[i].category == found.category && r[i].id != found.id)
      && (|r| < 3 ==> r == Filter(posts, SameCategoryOther(found)))
  {
    var f := Filter(posts, SameCategoryOther(found));
    var r := RelatedPosts(posts, found);
    FilterIsSubsequence(posts, SameCategoryOther(found));
    PrefixIsSubsequence(f, |r|);
    SubsequenceTransitive(r, f, posts);
    forall i | 0 <= i < |r| ensures r[i].category == found.category && r[i].id != found.id {
      assert SameCategoryOther(found)(f[i]);
    }
  }

  // ---------------------------------------------------------------------------
  // Table of contents: /^(#{1,3})\s+(.*)$/gm, one exec at a time
  // ---------------------------------------------------------------------------

  /** `^` in multiline mode holds at `i`: the start of the text, or right after a line terminator. */
  predicate IsLineStart(s: string, i: nat)
  {
    i == 0 || (i <= |s| && IsLineTerminator(s[i - 1]))
  }

  function IsHash(c: char): bool { c == '#' }
  function NotLineTerminator(c: char): bool { !IsLineTerminator(c) }

  /** The length of the longest run of characters satisfying `p` that starts at `i`. */
  function RunLength(s: string, i: nat, p: char -> bool): (n: nat)
    requires i <= |s|
    ensures i + n <= |s|
    decreases |s| - i
  {
    if i < |s| && p(s[i]) then 1 + RunLength(s, i + 1, p) else 0
  }

  /** The run is as long as it can be: every character in it satisfies `p`, and the next one does not. */
  lemma {:induction false} RunLengthMaximal(s: string, i: nat, p: char -> bool)
    requires i <= |s|
    ensures forall k | i <= k < i + RunLength(s, i, p) :: p(s[k])
    ensures i + RunLength(s, i, p) == |s| || !p(s[i + RunLength(s, i, p)])
    decreases |s| - i
  {
    if i < |s| && p(s[i]) {
      RunLengthMaximal(s, i + 1, p);
    }
  }

  /** One match of the pattern: where it starts and ends, the number of '#', and the captured text. */
  datatype Match = Match(start: nat, level: nat, text: string, end: nat)

  /**
   * The match of the pattern at `i`, if any. The '#' run must have 1 to 3
   * characters and be followed by whitespace (backtracking to fewer '#' only
   * meets another '#'); `\s+` then takes the whole whitespace run, line
   * breaks included, and `(.*)` the rest of the line it ends on.
   */
  function MatchAt(s: string, i: nat): (m: Option<Match>)
    requires i <= |s|
    ensures m.Some? ==> m.value.start == i && i < m.value.end <= |s|
  {
    var h := RunLength(s, i, IsHash);
    if IsLineStart(s, i) && 1 <= h <= 3 && i + h < |s| && IsWhitespace(s[i + h]) then
      var t0 := i + h + RunLength(s, i + h, IsWhitespace);
      var t1 := t0 + RunLength(s, t0, NotLineTerminator);
      Some(Match(i, h, s[t0..t1], t1))
    else None
  }

  /** A heading line starts at `i`: a line start, then exactly `h` '#' (1 to 3), then whitespace. */
  ghost predicate HeadingStartsAt(s: string, i: nat, h: nat)
  {
    && IsLineStart(s, i) && 1 <= h <= 3 && i + h < |s|
    && (forall k | i <= k < i + h :: s[k] == '#')
    && IsWhitespace(s[i + h])
  }

  /**
   * The pattern matches at `i` exactly when a heading line starts there; its
   * level is the number of '#' and its text holds no line terminator.
   */
  lemma MatchAtIffHeading(s: string, i: nat)
    requires i <= |s|
    ensures MatchAt(s, i).Some? <==> exists h :: HeadingStartsAt(s, i, h)
    ensures MatchAt(s, i).Some? ==> HeadingStartsAt(s, i, MatchAt(s, i).value.level)
    ensures MatchAt(s, i).Some? ==> forall k | 0 <= k < |MatchAt(s, i).value.text| :: !IsLineTerminator(MatchAt(s, i).value.text[k])
  {
    var hr := RunLength(s, i, IsHash);
    RunLengthMaximal(s, i, IsHash);
    if exists h :: HeadingStartsAt(s, i, h) {
      var h: nat :| HeadingStartsAt(s, i, h);
      if hr < h {
        assert false;
      }
      if hr > h {
        assert false;
      }
    }
    var m := MatchAt(s, i);
    if m.Some? {
      var t0 := i + hr + RunLength(s, i + hr, IsWhitespace);
      var t1 := t0 + RunLength(s, t0, NotLineTerminator);
      RunLengthMaximal(s, t0, NotLineTerminator);
      forall k | 0 <= k < |m.value.text| ensures !IsLineTerminator(m.value.text[k]) {
        assert m.value.text[k] == s[t0 + k];
        assert NotLineTerminator(s[t0 + k]);
      }
      forall k | i <= k < i + hr ensures s[k] == '#' {
        assert IsHash(s[k]);
      }
      assert HeadingStartsAt(s, i, hr);
    }
  }

  /** A line that starts with four or more '#' is not a heading of the table of contents. */
  lemma DeepHeadingExcluded(s: string, i: nat)
    requires i + 4 <= |s| && forall k | i <= k < i + 4 :: s[k] == '#'
    ensures MatchAt(s, i).None?
  {
    assert forall k | i <= k < i + 4 :: IsHash(s[k]);
    var h := RunLength(s, i, IsHash);
    RunLengthMaximal(s, i, IsHash);
    assert h >= 4;
  }

  /** The first match at or after `from`: what `regex.exec` returns when its `lastIndex` is `from`. */
  function NextMatch(s: string, from: nat): (m: Option<Match>)
    requires from <= |s|
    ensures m.Some? ==> from <= m.value.start <= |s| && MatchAt(s, m.value.start) == m
    ensures m.Some? ==> forall p | from <= p < m.value.start :: MatchAt(s, p).None?
    ensures m.None? ==> forall p | from <= p <= |s| :: MatchAt(s, p).None?
    decreases |s| - from
  {
    if MatchAt(s, from).Some? then MatchAt(s, from)
    else if from == |s| then None
    else NextMatch(s, from + 1)
  }

  /** A table-of-contents entry. */
  datatype Heading = Heading(id: string, text: string, level: nat)

  /** The id a heading's text gets, in the table of contents and on the rendered h1-h3 alike. */
  function AnchorId(text: string): (id: string)
    ensures forall k | 0 <= k < |id| :: IsLowerAlnum(id[k]) || id[k] == '-'
  {
    Hyphenate(ToLower(text))
  }

  function EntryOf(m: Match): Heading
  {
    Heading(AnchorId(m.text), m.text, m.level)
  }

  /** The table of contents of `s` from `from` on: the entry of each successive match. */
  function TocFrom(s: string, from: nat): seq<Heading>
    requires from <= |s|
    decreases |s| - from
  {
    match NextMatch(s, from)
    case None => []
    case Some(m) => [EntryOf(m)] + TocFrom(s, m.end)
  }

  /** One step of the scan: a match contributes its entry, and the scan resumes where it ended. */
  lemma TocFromStep(s: string, from: nat)
    requires from <= |s| && NextMatch(s, from).Some?
    ensures TocFrom(s, from) == [EntryOf(NextMatch(s, from).value)] + TocFrom(s, NextMatch(s, from).value.end)
  {
  }

  lemma AppendEntry(headings: seq<Heading>, e: Heading, rest: seq<Heading>)
    ensures headings + ([e] + rest) == (headings + [e]) + rest
  {
  }

  /** `generateToC`: runs `regex.exec` until it returns null, collecting one heading per match. */
  method GenerateToC(content: string) returns (headings: seq<Heading>)
    ensures headings == TocFrom(content, 0)
  {
    headings := [];
    var lastIndex := 0;
    var m := NextMatch(content, lastIndex);
    while m.Some?
      invariant lastIndex <= |content|
      invariant m == NextMatch(content, lastIndex)
      invariant headings + TocFrom(content, lastIndex) == TocFrom(content, 0)
      decreases |content| - lastIndex
    {
      TocFromStep(content, lastIndex);
      AppendEntry(headings, EntryOf(m.value), TocFrom(content, m.value.end));
      headings := headings + [EntryOf(m.value)];
      lastIndex := m.value.end;
      m := NextMatch(content, lastIndex);
    }
  }

  /** An entry as the scan builds it: level 1 to 3, text on one line, id the anchor of the text. */
  ghost predicate WellFormedEntry(e: Heading)
  {
    && 1 <= e.level <= 3 && e.id == AnchorId(e.text)
    && forall c | 0 <= c < |e.text| :: !IsLineTerminator(e.text[c])
  }

  /** Every entry of the table of contents is well formed. */
  lemma {:induction false} TocEntriesWellFormed(s: string, from: nat)
    requires from <= |s|
    ensures forall e | e in TocFrom(s, from) :: WellFormedEntry(e)
    decreases |s| - from
  {
    var n := NextMatch(s, from);
    if n.Some? {
      var m := n.value;
      TocEntriesWellFormed(s, m.end);
      MatchAtIffHeading(s, m.start);
      TocFromStep(s, from);
      assert WellFormedEntry(EntryOf(m));
    }
  }

  /**
   * At a line start, whether the pattern matches, and with what level and
   * text, depends only on the content from there on: a heading line after a
   * code fence (or anything else ending in a line break) matches as it would
   * on its own.
   */
  lemma MatchIgnoresWhatCameBefore(s: string, b: nat)
    requires b <= |s| && IsLineStart(s, b)
    ensures MatchAt(s, b).Some? <==> MatchAt(s[b..], 0).Some?
    ensures MatchAt(s, b).Some? ==>
      MatchAt(s, b).value.level == MatchAt(s[b..], 0).value.level
      && MatchAt(s, b).value.text == MatchAt(s[b..], 0).value.text
  {
    var t := s[b..];
    assert forall j | 0 <= j < |t| :: s[b + j] == t[j];
    MatchShift(s, b, t);
  }

  /** `MatchAt` at a line start `b` of `s` is the match at 0 of the text `t` that follows, moved by `b`. */
  lemma MatchShift(s: string, b: nat, t: string)
    requires |s| == b + |t| && forall j | 0 <= j < |t| :: s[b + j] == t[j]
    requires IsLineStart(s, b)
    ensures MatchAt(t, 0).None? ==> MatchAt(s, b).None?
    ensures MatchAt(t, 0).Some? ==>
      MatchAt(s, b) == Some(Match(b, MatchAt(t, 0).value.level, MatchAt(t, 0).value.text, b + MatchAt(t, 0).value.end))
  {
    RunShift(s, b, t, 0, IsHash);
    var h := RunLength(t, 0, IsHash);
    if 1 <= h <= 3 && h < |t| && IsWhitespace(t[h]) {
      assert s[b + h] == t[h];
      MatchShiftRuns(s, b, t, h);
    } else if h < |t| {
      assert s[b + h] == t[h];
    }
  }

  /** The whitespace run and the text run after the '#' run line up in `s` and `t` too. */
  lemma MatchShiftRuns(s: string, b: nat, t: string, h: nat)
    requires |s| == b + |t| && forall j | 0 <= j < |t| :: s[b + j] == t[j]
    requires IsLineStart(s, b)
    requires h == RunLength(t, 0, IsHash) == RunLength(s, b, IsHash)
    requires 1 <= h <= 3 && h < |t| && IsWhitespace(t[h]) && IsWhitespace(s[b + h])
    ensures MatchAt(t, 0).Some?
    ensures MatchAt(s, b) == Some(Match(b, MatchAt(t, 0).value.level, MatchAt(t, 0).value.text, b + MatchAt(t, 0).value.end))
  {
    RunShift(s, b, t, h, IsWhitespace);
    var w := RunLength(t, h, IsWhitespace);
    RunShift(s, b, t, h + w, NotLineTerminator);
    var l := RunLength(t, h + w, NotLineTerminator);
    SliceShift(s, b, t, h + w, h + w + l);
    MatchShiftFound(s, b, t, h, w, l);
  }

  /** The found case of `MatchShift`, once the three runs are known to line up. */
  lemma MatchShiftFound(s: string, b: nat, t: string, h: nat, w: nat, l: nat)
    requires |s| == b + |t| && IsLineStart(s, b)
    requires h == RunLength(t, 0, IsHash) == RunLength(s, b, IsHash)
    requires 1 <= h <= 3 && h < |t| && IsWhitespace(t[h]) && IsWhitespace(s[b + h])
    requires w == RunLength(t, h, IsWhitespace) == RunLength(s, b + h, IsWhitespace)
    requires l == RunLength(t, h + w, NotLineTerminator) == RunLength(s, b + h + w, NotLineTerminator)
    requires h + w + l <= |t| && s[b + h + w..b + h + w + l] == t[h + w..h + w + l]
    ensures MatchAt(t, 0).Some?
    ensures MatchAt(s, b) ==
      Some(Match(b, MatchAt(t, 0).value.level, MatchAt(t, 0).value.text, b + MatchAt(t, 0).value.end))
  {
    MatchAtFound(t, 0, h, w, l);
    MatchAtFound(s, b, h, w, l);
  }

  /** The found case of `MatchAt`, with its three run lengths named. */
  lemma MatchAtFound(s: string, i: nat, h: nat, w: nat, l: nat)
    requires i <= |s| && IsLineStart(s, i)
    requires h == RunLength(s, i, IsHash) && 1 <= h <= 3 && i + h < |s| && IsWhitespace(s[i + h])
    requires w == RunLength(s, i + h, IsWhitespace)
    requires l == RunLength(s, i + h + w, NotLineTerminator)
    ensures i + h + w + l <= |s|
    ensures MatchAt(s, i) == Some(Match(i, h, s[i + h + w..i + h + w + l], i + h + w + l))
  {
  }

  /** A slice of `t` is the matching slice of `s` when `t` is the text of `s` from `b` on. */
  lemma SliceShift(s: string, b: nat, t: string, x: nat, y: nat)
    requires |s| == b + |t| && forall j | 0 <= j < |t| :: s[b + j] == t[j]
    requires x <= y <= |t|
    ensures s[b + x..b + y] == t[x..y]
  {
    var u := s[b + x..b + y];
    forall k | 0 <= k < y - x ensures u[k] == t[x..y][k] {
      assert u[k] == s[b + x + k];
    }
  }

  /** A run in `t` has the same length when `t` is the text of `s` from `b` on. */
  lemma {:induction false} RunShift(s: string, b: nat, t: string, i: nat, p: char -> bool)
    requires |s| == b + |t| && forall j | 0 <= j < |t| :: s[b + j] == t[j]
    requires i <= |t|
    ensures RunLength(s, b + i, p) == RunLength(t, i, p)
    decreases |t| - i
  {
    if i < |t| {
      assert s[b + i] == t[i];
      RunShift(s, b, t, i + 1, p);
    }
  }

  /** `\s+` crosses line breaks: a heading with no text on its line takes the next line as its text. */
  lemma HeadingTextMayCrossLines(s: string)
    requires s == "#\n## Next"
    ensures MatchAt(s, 0) == Some(Match(0, 1, "## Next", 9))
  {
    assert RunLength(s, 1, IsHash) == 0;
    assert RunLength(s, 0, IsHash) == 1;
    assert RunLength(s, 2, IsWhitespace) == 0;
    assert RunLength(s, 1, IsWhitespace) == 1;
    assert RunLength(s, 2, NotLineTerminator) == 7 by {
      var k := RunLength(s, 2, NotLineTerminator);
      RunLengthMaximal(s, 2, NotLineTerminator);
      forall j | 2 <= j < 9 ensures NotLineTerminator(s[j]) {
      }
    }
    assert s[2..9] == "## Next";
  }

  /** Anchor ids do not fold Turkish letters: "Dünya" gets the id "d-nya". */
  lemma AnchorIdExample(text: string)
    requires text == "D\U{00FC}nya"
    ensures AnchorId(text) == "d-nya"
  {
    var lower := ToLower(text);
    assert lower == "d" + "\U{00FC}" + "nya" + "" by {
      assert |lower| == 5;
      forall i | 0 <= i < 5 ensures lower[i] == ("d" + "\U{00FC}" + "nya")[i] {
        assert lower[i] == LowerChar(text[i]);
      }
    }
    HyphenateTwoWords("d", "\U{00FC}", "nya", "");
  }

  // ---------------------------------------------------------------------------
  // The page
  // ---------------------------------------------------------------------------

  class PostPage {
    const store: ContentStore
    var post: Option<Post>
    var related: seq<Post>
    var toc: seq<Heading>
    var isLoading: bool
    /** The list the last fetch searched (the store's listing at that moment). */
    ghost var fetched: seq<Post>

    constructor (store: ContentStore)
      ensures this.store == store
      ensures post.None? && related == [] && toc == [] && isLoading && fetched == []
    {
      this.store := store;
      post := None;
      related := [];
      toc := [];
      isLoading := true;
      fetched := [];
    }

    /**
     * `fetchData`: without a slug nothing happens (the page keeps loading);
     * otherwise the page shows the first listed post with that slug, or none,
     * and for a found post also its table of contents and related posts.
     * When nothing is found, the previous contents and related posts stay.
     * The loading flag is up only while the fetch is in flight, which no
     * caller observes here, so only its final value is set.
     */
    method FetchData(slug: string, now: int, fault: Option<Fault>)
      requires store.Valid()
      modifies this
      ensures slug == [] ==>
        post == old(post) && related == old(related) && toc == old(toc) && isLoading == old(isLoading) && fetched == old(fetched)
      ensures slug != [] ==>
        && !isLoading
        && (fault.Some? ==> fetched == []) && (fault.None? ==> IsListing(fetched, store.posts, now))
        && post == FindBySlug(fetched, slug)
        && (post.Some? ==> toc == TocFrom(post.value.content, 0) && related == RelatedPosts(fetched, post.value))
        && (post.None? ==> toc == old(toc) && related == old(related))
    {
      if slug == [] {
        return;
      }
      var all := store.GetPosts(now, fault);
      ShowPost(all, slug);
      fetched, isLoading := all, false;
    }

    /** The part of `fetchData` after the fetch: find the post in `all` and, when found, build its contents and related posts. */
    method ShowPost(all: seq<Post>, slug: string)
      modifies this
      ensures post == FindBySlug(all, slug)
      ensures post.Some? ==> toc == TocFrom(post.value.content, 0) && related == RelatedPosts(all, post.value)
      ensures post.None? ==> toc == old(toc) && related == old(related)
      ensures isLoading == old(isLoading) && fetched == old(fetched)
    {
      var found := FindBySlug(all, slug);
      if found.Some? {
        var headings := GenerateToC(found.value.content);
        toc, related := headings, RelatedPosts(all, found.value);
      }
      post := found;
    }
  }

  /**
   * With unique slugs, the page shows the post stored under the slug: it is
   * found exactly when some row has that slug, and it is that row's post.
   */
  lemma FoundPostIsTheRow(fetched: seq<Post>, rows: PostTable, now: int, slug: string)
    requires IsListing(fetched, rows, now) && WellKeyed(rows) && SlugsUnique(rows)
    ensures FindBySlug(fetched, slug).Some? <==> exists id | id in rows :: rows[id].slug == slug
    ensures forall id | id in rows && rows[id].slug == slug :: FindBySlug(fetched, slug) == Some(MapPostFromDB(rows[id], now))
  {
    FindBySlugFirst(fetched, slug);
    if exists id | id in rows :: rows[id].slug == slug {
      var id :| id in rows && rows[id].slug == slug;
      ListingShowsRow(fetched, rows, now, id);
    }
    var r := FindBySlug(fetched, slug);
    if r.Some? {
      var i :| 0 <= i < |fetched| && fetched[i] == r.value;
      assert fetched[i].id in rows;
    }
  }
}
