/**
 * The storage service: reading time, the email check, the mapping between a
 * database row and a post, and the two hosted tables (`posts`, keyed by id,
 * and `subscribers`) held in one object whose methods are the service's
 * calls. A failure of the hosted database is a `fault` parameter, the clock
 * is `now` and a database-generated id is `newId`.
 */
module Storage {
  import opened Wrappers
  import opened Seqs
  import opened JsText
  import opened Types

  const WordsPerMinute: nat := 200

  /** The one id `deleteAllData` spares (an id no post is expected to have). */
  const Sentinel: string := "00000000-0000-0000-0000-000000000000"

  /** The database's unique-violation code. */
  const DuplicateKey: string := "23505"

  /** The database's code for an upsert batch that names the same row twice. */
  const CardinalityViolation: string := "21000"

  const InvalidEmailMessage: string := "Geçersiz e-posta adresi."

  // ---------------------------------------------------------------------------
  // calculateReadingTime
  // ---------------------------------------------------------------------------

  /** `Math.ceil(a / b)` for a non-negative numerator. */
  function CeilDiv(a: nat, b: nat): (r: nat)
    requires b > 0
    ensures a <= r * b && (r == 0 || (r - 1) * b < a)
  {
    (a + b - 1) / b
  }

  /** `calculateReadingTime(text)`: 0 for the empty text, else the split length of the trimmed text over 200, rounded up. */
  function ReadingTime(text: string): (r: nat)
    ensures text == [] <==> r == 0
  {
    if text == [] then 0 else CeilDiv(SplitLength(Trim(text)), WordsPerMinute)
  }

  /** The number the reading time is computed from: the words of the text, but at least one. */
  function WordsForTiming(text: string): nat
  {
    if TokenCount(text) == 0 then 1 else TokenCount(text)
  }

  /** For a non-empty text, the reading time is the word count (at least one) over 200, rounded up. */
  lemma ReadingTimeOfWords(text: string)
    requires text != []
    ensures var w := WordsForTiming(text);
      w <= ReadingTime(text) * WordsPerMinute && (ReadingTime(text) - 1) * WordsPerMinute < w
  {
    SplitLengthOfTrim(text);
  }

  /** A non-empty text of whitespace only still takes one minute: its trimmed split has one (empty) piece. */
  lemma ReadingTimeOfBlankText(text: string)
    requires text != [] && forall i | 0 <= i < |text| :: IsWhitespace(text[i])
    ensures ReadingTime(text) == 1
  {
    SplitLengthOfTrim(text);
  }

  /** More words never take less time. */
  lemma ReadingTimeMonotone(a: string, b: string)
    requires a != [] && b != [] && TokenCount(a) <= TokenCount(b)
    ensures ReadingTime(a) <= ReadingTime(b)
  {
    ReadingTimeOfWords(a);
    ReadingTimeOfWords(b);
  }

  // ---------------------------------------------------------------------------
  // The email check /^[^\s@]+@[^\s@]+\.[^\s@]+$/
  // ---------------------------------------------------------------------------

  /** A character of the class `[^\s@]`. */
  predicate EmailChar(c: char)
  {
    !IsWhitespace(c) && c != '@'
  }

  predicate AllEmailChars(s: string)
  {
    forall i | 0 <= i < |s| :: EmailChar(s[i])
  }

  /** The position of the first `c` in `s`, or |s| when there is none. */
  function FirstIndex(s: string, c: char): (r: nat)
    ensures r <= |s|
    ensures r < |s| ==> s[r] == c
    ensures forall i | 0 <= i < r :: s[i] != c
  {
    if s == [] || s[0] == c then 0 else 1 + FirstIndex(s[1..], c)
  }

  /**
   * The email check, computed: the part before the first '@' is a non-empty run
   * of `[^\s@]`, and the rest is a run of `[^\s@]` with a '.' that has at least
   * one character on each side.
   */
  predicate ValidEmail(email: string)
  {
    var at := FirstIndex(email, '@');
    var domain := if at < |email| then email[at + 1..] else [];
    0 < at < |email| && AllEmailChars(email[..at]) && AllEmailChars(domain)
    && |domain| >= 3 && '.' in domain[1..|domain| - 1]
  }

  /** `email` reads local '@' host '.' top, with `at` and `dot` the positions of the separators and every part matching `[^\s@]+`. */
  ghost predicate EmailSplitsAt(email: string, at: int, dot: int)
  {
    0 < at && at + 1 < dot && dot + 1 < |email|
    && email[at] == '@' && email[dot] == '.'
    && AllEmailChars(email[..at]) && AllEmailChars(email[at + 1..dot]) && AllEmailChars(email[dot + 1..])
  }

  /** Every string the computed check accepts matches the regular expression. */
  lemma ValidEmailSplits(email: string)
    requires ValidEmail(email)
    ensures exists at, dot :: EmailSplitsAt(email, at, dot)
  {
    var at := FirstIndex(email, '@');
    var domain := email[at + 1..];
    var k :| 0 <= k < |domain| - 2 && domain[1..|domain| - 1][k] == '.';
    var dot := at + 2 + k;
    assert email[at + 1..dot] == domain[..k + 1];
    assert email[dot + 1..] == domain[k + 2..];
    assert EmailSplitsAt(email, at, dot);
  }

  /** Every string the regular expression matches passes the computed check. */
  lemma SplitsValidEmail(email: string, a: int, d: int)
    requires EmailSplitsAt(email, a, d)
    ensures ValidEmail(email)
  {
    var at := FirstIndex(email, '@');
    if at < a {
      assert false;
    }
    assert at == a;
    var domain := email[at + 1..];
    forall i | 0 <= i < |domain| ensures EmailChar(domain[i]) {
      if i < d - at - 1 {
        assert domain[i] == email[at + 1..d][i];
      } else if i > d - at - 1 {
        assert domain[i] == email[d + 1..][i - (d - at)];
      }
    }
    assert domain[1..|domain| - 1][d - at - 2] == '.';
  }

  /** The computed check accepts exactly the strings the regular expression matches. */
  lemma ValidEmailMatchesPattern(email: string)
    ensures ValidEmail(email) <==> exists at, dot :: EmailSplitsAt(email, at, dot)
  {
    if ValidEmail(email) {
      ValidEmailSplits(email);
    }
    if exists a, d :: EmailSplitsAt(email, a, d) {
      var a, d :| EmailSplitsAt(email, a, d);
      SplitsValidEmail(email, a, d);
    }
  }

  // ---------------------------------------------------------------------------
  // Rows of the `posts` table and the mapping to posts
  // ---------------------------------------------------------------------------

  /** The `tags` column: an array, or something else (null). */
  datatype TagsColumn = TagList(items: seq<string>) | NotAList

  /** A row as the database returns it; `None` is a null (or absent) column. */
  datatype PostRow = PostRow(
    id: string,
    title: string,
    slug: string,
    summary: string,
    content: string,
    image: string,
    createdAt: Option<int>,
    date: Option<int>,
    category: Option<PostCategory>,
    tags: TagsColumn,
    updatedAt: Option<int>,
    isFeatured: Option<bool>,
    readingTimeMinutes: Option<int>)

  function OrElse<T>(o: Option<T>, fallback: T): T
  {
    if o.Some? then o.value else fallback
  }

  /** `mapPostFromDB`: copies the text columns and fills each missing column with its default. */
  function MapPostFromDB(row: PostRow, now: int): Post
  {
    Post(row.id, row.title, row.slug, row.summary, row.content, row.image,
         OrElse(row.createdAt, OrElse(row.date, now)),
         OrElse(row.category, Article),
         if row.tags.TagList? then row.tags.items else [],
         OrElse(row.updatedAt, now),
         row.isFeatured == Some(true),
         OrElse(row.readingTimeMinutes, 0))
  }

  /** The defaults `mapPostFromDB` applies, one column at a time. */
  lemma MapPostDefaults(row: PostRow, now: int)
    ensures var p := MapPostFromDB(row, now);
      && (row.createdAt.Some? ==> p.date == row.createdAt.value)
      && (row.createdAt.None? && row.date.Some? ==> p.date == row.date.value)
      && (row.createdAt.None? && row.date.None? ==> p.date == now)
      && (row.category.None? ==> p.category == Article)
      && (row.tags.NotAList? ==> p.tags == [])
      && (row.updatedAt.None? ==> p.updatedAt == now)
      && (p.isFeatured <==> row.isFeatured == Some(true))
      && (row.readingTimeMinutes.None? ==> p.readingTimeMinutes == 0)
  {
  }

  /** The row `savePost` writes: every field of the post, with `updated_at` set to the save time. */
  function RowOfPost(p: Post, now: int): PostRow
  {
    PostRow(p.id, p.title, p.slug, p.summary, p.content, p.image, Some(p.date), None,
            Some(p.category), TagList(p.tags), Some(now), Some(p.isFeatured), Some(p.readingTimeMinutes))
  }

  /** The row `seedData` writes: every field of the post, its own `updatedAt` included. */
  function SeedRow(p: Post): PostRow
  {
    PostRow(p.id, p.title, p.slug, p.summary, p.content, p.image, Some(p.date), None,
            Some(p.category), TagList(p.tags), Some(p.updatedAt), Some(p.isFeatured), Some(p.readingTimeMinutes))
  }

  /** Reading back a saved post gives the post again, except that `updatedAt` is the save time. */
  lemma SavedRowRoundTrip(p: Post, saved: int, read: int)
    ensures MapPostFromDB(RowOfPost(p, saved), read) == p.(updatedAt := saved)
  {
  }

  /** Reading back a seeded post gives exactly the post. */
  lemma SeedRowRoundTrip(p: Post, read: int)
    ensures MapPostFromDB(SeedRow(p), read) == p
  {
  }

  // ---------------------------------------------------------------------------
  // Table states and the upsert they obey
  // ---------------------------------------------------------------------------

  type PostTable = map<string, PostRow>

  /** Every row sits under its own id, and `created_at`/`updated_at` are never null. */
  ghost predicate WellKeyed(rows: PostTable)
  {
    forall id | id in rows :: rows[id].id == id && rows[id].createdAt.Some? && rows[id].updatedAt.Some?
  }

  /** The `slug` column is unique. */
  predicate SlugsUnique(rows: PostTable)
  {
    forall a, b | a in rows && b in rows && rows[a].slug == rows[b].slug :: a == b
  }

  ghost predicate EmailsUnique(subs: seq<Subscriber>)
  {
    forall i, j | 0 <= i < j < |subs| :: subs[i].email != subs[j].email
  }

  /** An upsert with conflict target `id`: the row replaces the one with its id, or is added. */
  function Upsert(rows: PostTable, row: PostRow): (r: PostTable)
    ensures r.Keys == rows.Keys + {row.id}
    ensures r[row.id] == row
  {
    rows[row.id := row]
  }

  /** An upsert replaces only the row with the same id and leaves every other row as it was. */
  lemma UpsertTouchesOnlyItsId(rows: PostTable, row: PostRow, id: string)
    requires id != row.id
    ensures id in Upsert(rows, row) <==> id in rows
    ensures id in rows ==> Upsert(rows, row)[id] == rows[id]
  {
  }

  /** A batch upsert, row by row. */
  function UpsertAll(rows: PostTable, batch: seq<PostRow>): PostTable
    decreases |batch|
  {
    if batch == [] then rows else UpsertAll(Upsert(rows, batch[0]), batch[1..])
  }

  lemma {:induction false} UpsertAllKeeps(rows: PostTable, batch: seq<PostRow>)
    requires WellKeyed(rows)
    requires forall i | 0 <= i < |batch| :: batch[i].createdAt.Some? && batch[i].updatedAt.Some?
    ensures WellKeyed(UpsertAll(rows, batch))
    ensures UpsertAll(rows, batch).Keys == rows.Keys + set i | 0 <= i < |batch| :: batch[i].id
    decreases |batch|
  {
    if batch != [] {
      UpsertAllKeeps(Upsert(rows, batch[0]), batch[1..]);
      var later := set i | 0 <= i < |batch[1..]| :: batch[1..][i].id;
      var all := set i | 0 <= i < |batch| :: batch[i].id;
      assert all == {batch[0].id} + later by {
        forall x | x in all ensures x in {batch[0].id} + later {
          var i :| 0 <= i < |batch| && batch[i].id == x;
          if i > 0 { assert batch[1..][i - 1].id == x; }
        }
      }
    }
  }

  predicate DistinctIds(batch: seq<PostRow>)
  {
    forall i, j | 0 <= i < j < |batch| :: batch[i].id != batch[j].id
  }

  /** Deleting by id: the row with that id goes, if there is one. */
  function DeleteById(rows: PostTable, id: string): (r: PostTable)
    ensures id !in r
  {
    rows - {id}
  }

  /** Deleting an id that has no row changes nothing; otherwise only that row goes. */
  lemma DeleteByIdEffect(rows: PostTable, id: string)
    ensures id !in rows ==> DeleteById(rows, id) == rows
    ensures forall k | k in rows && k != id :: k in DeleteById(rows, id) && DeleteById(rows, id)[k] == rows[k]
    ensures DeleteById(rows, id).Keys == rows.Keys - {id}
  {
  }

  /** `delete().neq('id', Sentinel)`: every row except the sentinel's goes. */
  function DeleteAllButSentinel(rows: PostTable): (r: PostTable)
    ensures r.Keys <= {Sentinel}
    ensures Sentinel in rows ==> Sentinel in r && r[Sentinel] == rows[Sentinel]
  {
    map id | id in rows && id == Sentinel :: rows[id]
  }

  // ---------------------------------------------------------------------------
  // What getPosts returns
  // ---------------------------------------------------------------------------

  /**
   * `r` lists the table newest first: each row exactly once, mapped to a post,
   * ordered by `created_at` descending (ties in no particular order).
   */
  ghost predicate IsListing(r: seq<Post>, rows: PostTable, now: int)
  {
    && multiset(MapSeq(r, IdOf)) == multiset(rows.Keys)
    && (forall i | 0 <= i < |r| :: r[i].id in rows && r[i] == MapPostFromDB(rows[r[i].id], now))
    && SortedDesc(r, DateOf)
  }

  /** A listing has one post per row. */
  lemma ListingLength(r: seq<Post>, rows: PostTable, now: int)
    requires IsListing(r, rows, now)
    ensures |r| == |rows|
  {
    assert |multiset(MapSeq(r, IdOf))| == |MapSeq(r, IdOf)|;
    assert |multiset(rows.Keys)| == |rows.Keys|;
  }

  /** Every row of the table shows up in a listing, as its mapped post. */
  lemma ListingShowsRow(r: seq<Post>, rows: PostTable, now: int, id: string)
    requires IsListing(r, rows, now) && WellKeyed(rows) && id in rows
    ensures exists i | 0 <= i < |r| :: r[i] == MapPostFromDB(rows[id], now)
  {
    var ids := MapSeq(r, IdOf);
    assert id in multiset(ids);
    var i :| 0 <= i < |ids| && ids[i] == id;
    assert r[i].id == id;
  }

  /** On a well-keyed table, listing order by the posts' dates is listing order by `created_at`. */
  lemma ListingDateIsCreatedAt(r: seq<Post>, rows: PostTable, now: int, i: int)
    requires WellKeyed(rows) && IsListing(r, rows, now) && 0 <= i < |r|
    ensures r[i].date == rows[r[i].id].createdAt.value
  {
  }

  lemma MapSeqAppend<T, U>(s: seq<T>, x: T, f: T -> U)
    ensures MapSeq(s + [x], f) == MapSeq(s, f) + [f(x)]
  {
    var l, r := MapSeq(s + [x], f), MapSeq(s, f) + [f(x)];
    assert |l| == |r|;
    forall i | 0 <= i < |l| ensures l[i] == r[i] {
      if i < |s| { assert (s + [x])[i] == s[i]; }
    }
  }

  lemma MultisetOfRemoval<T>(s: set<T>, x: T)
    requires x in s
    ensures multiset(s - {x}) + multiset{x} == multiset(s)
  {
    assert s == (s - {x}) + {x};
  }

  /** Every post of `s` is the mapping of the row stored under its id. */
  ghost predicate AllMapped(s: seq<Post>, rows: PostTable, now: int)
  {
    forall i | 0 <= i < |s| :: s[i].id in rows && s[i] == MapPostFromDB(rows[s[i].id], now)
  }

  lemma AllMappedAppend(s: seq<Post>, rows: PostTable, now: int, id: string)
    requires AllMapped(s, rows, now) && id in rows && rows[id].id == id
    ensures AllMapped(s + [MapPostFromDB(rows[id], now)], rows, now)
  {
  }

  /** Posts collected one per row, then sorted by date, form a listing of the table. */
  lemma SortedCollectionIsListing(fetched: seq<Post>, rows: PostTable, now: int)
    requires multiset(MapSeq(fetched, IdOf)) == multiset(rows.Keys)
    requires AllMapped(fetched, rows, now)
    ensures IsListing(SortDesc(fetched, DateOf), rows, now)
  {
    var r := SortDesc(fetched, DateOf);
    SortDescSorted(fetched, DateOf);
    SortDescMapped(fetched, DateOf, IdOf);
    forall i | 0 <= i < |r| ensures r[i].id in rows && r[i] == MapPostFromDB(rows[r[i].id], now) {
      assert r[i] in multiset(r);
      assert r[i] in multiset(fetched);
      var j :| 0 <= j < |fetched| && fetched[j] == r[i];
    }
  }

  // ---------------------------------------------------------------------------
  // Subscribers
  // ---------------------------------------------------------------------------

  function HasEmail(email: string): Subscriber -> bool
  {
    (s: Subscriber) => s.email == email
  }

  /** How many subscribers carry `email`. */
  function Occurrences(subs: seq<Subscriber>, email: string): nat
  {
    |Filter(subs, HasEmail(email))|
  }

  lemma {:induction false} OccurrencesUnique(subs: seq<Subscriber>, email: string)
    requires EmailsUnique(subs)
    ensures Occurrences(subs, email) <= 1
    ensures Occurrences(subs, email) == 1 <==> exists i | 0 <= i < |subs| :: subs[i].email == email
  {
    if subs != [] {
      OccurrencesUnique(subs[1..], email);
      if subs[0].email == email {
        assert forall i | 0 <= i < |subs[1..]| :: subs[1..][i].email != email by {
          forall i | 0 <= i < |subs[1..]| ensures subs[1..][i].email != email {
            assert subs[1..][i] == subs[i + 1];
          }
        }
        assert Occurrences(subs[1..], email) == 0;
      } else {
        if exists i | 0 <= i < |subs| :: subs[i].email == email {
          var i :| 0 <= i < |subs| && subs[i].email == email;
          assert subs[1..][i - 1].email == email;
        }
        if exists i | 0 <= i < |subs[1..]| :: subs[1..][i].email == email {
          var i :| 0 <= i < |subs[1..]| && subs[1..][i].email == email;
          assert subs[i + 1].email == email;
        }
      }
    }
  }

  lemma {:induction false} OccurrencesAppend(subs: seq<Subscriber>, s: Subscriber, email: string)
    ensures Occurrences(subs + [s], email) == Occurrences(subs, email) + (if s.email == email then 1 else 0)
  {
    FilterAppend(subs, [s], HasEmail(email));
  }

  /** The error the `subscribers` insert reports: a unique violation when the email is already stored, else the injected fault. */
  function InsertError(subs: seq<Subscriber>, email: string, fault: Option<Fault>): Option<Fault>
  {
    if fault.Some? then fault
    else if exists i | 0 <= i < |subs| :: subs[i].email == email then Some(Fault(DuplicateKey, "duplicate key value violates unique constraint"))
    else None
  }

  /**
   * What `addSubscriber` reports: the invalid-address error before any
   * database call, success when the insert succeeds or hits the unique
   * constraint (23505), and the database error otherwise.
   */
  function SubscribeOutcome(subs: seq<Subscriber>, email: string, fault: Option<Fault>): (o: Outcome<Fault>)
    ensures o.Fail? ==> !ValidEmail(email) || o.error.code != DuplicateKey
  {
    if !ValidEmail(email) then Fail(Fault("", InvalidEmailMessage))
    else match InsertError(subs, email, fault)
      case Some(f) => if f.code == DuplicateKey then Pass else Fail(f)
      case None => Pass
  }

  /** Subscribing an address that is already stored succeeds, and so does a fresh valid address when the database works. */
  lemma SubscribeValidPasses(subs: seq<Subscriber>, email: string)
    requires ValidEmail(email)
    ensures SubscribeOutcome(subs, email, None) == Pass
    ensures SubscribeOutcome(subs, email, Some(Fault(DuplicateKey, ""))) == Pass
  {
  }

  // ---------------------------------------------------------------------------
  // The tables
  // ---------------------------------------------------------------------------

  /** The write the database refuses, if any: an injected fault, two samples with one id, or a duplicated slug. */
  function CheckWrite(candidate: PostTable, fault: Option<Fault>): Option<Fault>
  {
    if fault.Some? then fault
    else if !SlugsUnique(candidate) then Some(Fault(DuplicateKey, "duplicate key value violates unique constraint"))
    else None
  }

  /** The table after the sample posts are upserted. */
  function Seeded(rows: PostTable, samples: seq<Post>): PostTable
  {
    UpsertAll(rows, MapSeq(samples, SeedRow))
  }

  /** Why the seeding statement fails, if it does. */
  function SeedError(rows: PostTable, samples: seq<Post>, fault: Option<Fault>): Option<Fault>
  {
    if fault.None? && !DistinctIds(MapSeq(samples, SeedRow))
    then Some(Fault(CardinalityViolation, "ON CONFLICT DO UPDATE command cannot affect row a second time"))
    else CheckWrite(Seeded(rows, samples), fault)
  }

  class ContentStore {
    var posts: PostTable
    var subscribers: seq<Subscriber>
    /** The posts `seedData` writes (the repository's sample articles). */
    const samples: seq<Post>

    ghost predicate Valid()
      reads this
    {
      WellKeyed(posts) && SlugsUnique(posts) && EmailsUnique(subscribers)
    }

    constructor (samples: seq<Post>)
      ensures Valid()
      ensures posts == map[] && subscribers == [] && this.samples == samples
    {
      posts := map[];
      subscribers := [];
      this.samples := samples;
    }

    /** `getPosts`: the table newest first, or `[]` when the query fails. */
    method GetPosts(now: int, fault: Option<Fault>) returns (r: seq<Post>)
      requires Valid()
      ensures fault.Some? ==> r == []
      ensures fault.None? ==> IsListing(r, posts, now)
    {
      if fault.Some? {
        return [];
      }
      var rows := posts;
      var pending := rows.Keys;
      var fetched: seq<Post> := [];
      while pending != {}
        invariant pending <= rows.Keys
        invariant multiset(MapSeq(fetched, IdOf)) + multiset(pending) == multiset(rows.Keys)
        invariant AllMapped(fetched, rows, now)
        decreases |pending|
      {
        var id :| id in pending;
        var post := MapPostFromDB(rows[id], now);
        MapSeqAppend(fetched, post, IdOf);
        MultisetOfRemoval(pending, id);
        AllMappedAppend(fetched, rows, now, id);
        fetched := fetched + [post];
        pending := pending - {id};
      }
      r := SortDesc(fetched, DateOf);
      SortedCollectionIsListing(fetched, rows, now);
    }

    /** `savePost`: upserts the post's row by id, stamping `updated_at` with `now`; throws on a database error. */
    method SavePost(p: Post, now: int, fault: Option<Fault>) returns (o: Outcome<Fault>)
      requires Valid()
      modifies this
      ensures Valid()
      ensures subscribers == old(subscribers)
      ensures var candidate := Upsert(old(posts), RowOfPost(p, now));
        match CheckWrite(candidate, fault)
        case Some(f) => o == Fail(f) && posts == old(posts)
        case None => o == Pass && posts == candidate
    {
      var candidate := Upsert(posts, RowOfPost(p, now));
      var err := CheckWrite(candidate, fault);
      if err.Some? {
        return Fail(err.value);
      }
      posts := candidate;
      return Pass;
    }

    /** `deletePost`: removes the row with that id (none is fine); throws on a database error. */
    method DeletePost(id: string, fault: Option<Fault>) returns (o: Outcome<Fault>)
      requires Valid()
      modifies this
      ensures Valid()
      ensures subscribers == old(subscribers)
      ensures fault.Some? ==> o == Fail(fault.value) && posts == old(posts)
      ensures fault.None? ==> o == Pass && posts == DeleteById(old(posts), id)
    {
      if fault.Some? {
        return Fail(fault.value);
      }
      posts := DeleteById(posts, id);
      return Pass;
    }

    /** `deleteAllData`: removes every row but the sentinel's; throws on a database error. */
    method DeleteAllData(fault: Option<Fault>) returns (o: Outcome<Fault>)
      requires Valid()
      modifies this
      ensures Valid()
      ensures subscribers == old(subscribers)
      ensures fault.Some? ==> o == Fail(fault.value) && posts == old(posts)
      ensures fault.None? ==> o == Pass && posts == DeleteAllButSentinel(old(posts))
    {
      if fault.Some? {
        return Fail(fault.value);
      }
      posts := DeleteAllButSentinel(posts);
      return Pass;
    }

    /**
     * `seedData`: upserts every sample post by id in one statement, keeping the
     * samples' own `updatedAt`; the statement fails as a whole.
     */
    method SeedData(fault: Option<Fault>) returns (o: Outcome<Fault>)
      requires Valid()
      modifies this
      ensures Valid()
      ensures subscribers == old(subscribers)
      ensures match SeedError(old(posts), samples, fault)
        case Some(f) => o == Fail(f) && posts == old(posts)
        case None => o == Pass && posts == Seeded(old(posts), samples)
    {
      var err := SeedError(posts, samples, fault);
      if err.Some? {
        return Fail(err.value);
      }
      UpsertAllKeeps(posts, MapSeq(samples, SeedRow));
      posts := Seeded(posts, samples);
      return Pass;
    }

    /**
     * `addSubscriber`: rejects a malformed email before touching the table;
     * otherwise inserts it, treating a unique violation (already subscribed)
     * as success and throwing on any other database error.
     */
    method AddSubscriber(email: string, newId: string, now: int, fault: Option<Fault>) returns (o: Outcome<Fault>)
      requires Valid()
      modifies this
      ensures Valid()
      ensures posts == old(posts)
      ensures o == SubscribeOutcome(old(subscribers), email, fault)
      ensures !ValidEmail(email) ==> o == Fail(Fault("", InvalidEmailMessage)) && subscribers == old(subscribers)
      ensures ValidEmail(email) ==>
        match InsertError(old(subscribers), email, fault)
        case Some(f) => subscribers == old(subscribers) && o == (if f.code == DuplicateKey then Pass else Fail(f))
        case None => o == Pass && subscribers == old(subscribers) + [Subscriber(newId, email, now)]
    {
      if !ValidEmail(email) {
        return Fail(Fault("", InvalidEmailMessage));
      }
      var err := InsertError(subscribers, email, fault);
      if err.Some? {
        o := if err.value.code == DuplicateKey then Pass else Fail(err.value);
        return;
      }
      subscribers := subscribers + [Subscriber(newId, email, now)];
      return Pass;
    }

    /** `getSubscribers`: all subscribers, newest first, or `[]` when the query fails. */
    method GetSubscribers(fault: Option<Fault>) returns (r: seq<Subscriber>)
      requires Valid()
      ensures fault.Some? ==> r == []
      ensures fault.None? ==> multiset(r) == multiset(subscribers) && SortedDesc(r, CreatedAtOf)
    {
      if fault.Some? {
        return [];
      }
      r := SortDesc(subscribers, CreatedAtOf);
      SortDescSorted(subscribers, CreatedAtOf);
    }
  }

  /**
   * After a subscribe that passes with a well-formed email (and a fault, if
   * any, that is not itself a unique violation), the email is stored exactly
   * once; a repeated subscribe leaves the table as it was.
   */
  lemma SubscribeStoresOnce(subs: seq<Subscriber>, email: string, newId: string, now: int, fault: Option<Fault>)
    requires EmailsUnique(subs) && ValidEmail(email)
    requires fault.None? || fault.value.code != DuplicateKey
    ensures var err := InsertError(subs, email, fault);
      var after := if err.Some? then subs else subs + [Subscriber(newId, email, now)];
      (err.None? || err.value.code == DuplicateKey) ==> Occurrences(after, email) == 1
  {
    var err := InsertError(subs, email, fault);
    OccurrencesUnique(subs, email);
    if err.None? {
      OccurrencesAppend(subs, Subscriber(newId, email, now), email);
      assert Occurrences(subs, email) == 0;
    }
  }
}
