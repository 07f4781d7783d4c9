/**
 * The admin console: the editor's draft, the post and subscriber lists it
 * shows, the pending single delete, and the handlers that move between these
 * states while calling the store and the AI assistant. Slug, summary, image
 * and reading-time derivation for a saved post, and the dashboard statistics,
 * are pure functions beside it.
 */
module Admin {
  import opened Wrappers
  import opened Seqs
  import opened JsText
  import opened Types
  import opened Storage
  import opened TextAssist

  // ---------------------------------------------------------------------------
  // The slug derived from a title
  // ---------------------------------------------------------------------------

  /** Folds the lower-case Turkish letters ğ ü ş ı ö ç to g u s i o c. */
  function FoldTurkishChar(c: char): char
  {
    if c == '\U{011F}' then 'g'       // ğ
    else if c == '\U{00FC}' then 'u'  // ü
    else if c == '\U{015F}' then 's'  // ş
    else if c == '\U{0131}' then 'i'  // ı
    else if c == '\U{00F6}' then 'o'  // ö
    else if c == '\U{00E7}' then 'c'  // ç
    else c
  }

  function FoldTurkish(s: string): (r: string)
    ensures |r| == |s|
    ensures forall i | 0 <= i < |s| :: r[i] == FoldTurkishChar(s[i])
  {
    seq(|s|, i requires 0 <= i < |s| => FoldTurkishChar(s[i]))
  }

  /** The slug made from a title: lower-cased, Turkish letters folded, then hyphenated. */
  function DeriveSlug(title: string): string
  {
    Hyphenate(FoldTurkish(ToLower(title)))
  }

  /** The slug a save uses: the draft's own when it has one, else one derived from the title. */
  function ChooseSlug(draftSlug: string, title: string): (slug: string)
    ensures draftSlug != [] ==> slug == draftSlug
    ensures draftSlug == [] ==>
      && (forall i | 0 <= i < |slug| :: IsLowerAlnum(slug[i]) || slug[i] == '-')
      && (slug == [] || (slug[0] != '-' && slug[|slug| - 1] != '-'))
      && (forall i | 0 <= i < |slug| - 1 :: !(slug[i] == '-' && slug[i + 1] == '-'))
  {
    if draftSlug != [] then draftSlug else DeriveSlug(title)
  }

  /** The letters and digits of a derived slug are those of the folded, lower-cased title, in order. */
  lemma DeriveSlugKeepsLettersAndDigits(title: string)
    ensures Filter(DeriveSlug(title), IsLowerAlnum) == Filter(FoldTurkish(ToLower(title)), IsLowerAlnum)
  {
    HyphenateKeepsAlnums(FoldTurkish(ToLower(title)));
  }

  /** A title with Turkish letters gets an ASCII slug: "Merhaba Dünya!" becomes "merhaba-dunya". */
  lemma DeriveSlugExample(title: string)
    requires title == "Merhaba D\U{00FC}nya!"
    ensures DeriveSlug(title) == "merhaba-dunya"
  {
    var lower := ToLower(title);
    LowerOfExample(title, lower);
    var folded := FoldTurkish(lower);
    FoldOfExample(lower, folded);
    assert folded == "merhaba" + " " + "dunya" + "!";
    HyphenateTwoWords("merhaba", " ", "dunya", "!");
  }

  lemma LowerOfExample(title: string, lower: string)
    requires title == "Merhaba D\U{00FC}nya!" && lower == ToLower(title)
    ensures lower == "merhaba d\U{00FC}nya!"
  {
    forall i | 0 <= i < 14 ensures lower[i] == "merhaba d\U{00FC}nya!"[i] {
      assert lower[i] == LowerChar(title[i]);
    }
  }

  lemma FoldOfExample(lower: string, folded: string)
    requires lower == "merhaba d\U{00FC}nya!" && folded == FoldTurkish(lower)
    ensures folded == "merhaba dunya!"
  {
    forall i | 0 <= i < 14 ensures folded[i] == "merhaba dunya!"[i] {
      assert folded[i] == FoldTurkishChar(lower[i]);
    }
  }

  // ---------------------------------------------------------------------------
  // Summary, image and the record a save writes
  // ---------------------------------------------------------------------------

  const SummaryFallbackLength: nat := 150

  /**
   * The summary a save uses: the draft's own when it has one; else the AI's
   * (possibly empty) summary; and when the AI call throws, the first 150
   * characters of the content followed by "...".
   */
  function ChooseSummary(draftSummary: string, content: string, ai: Result<string, Fault>): string
  {
    if draftSummary != [] then draftSummary
    else if ai.Success? then ai.value
    else Take(content, SummaryFallbackLength) + "..."
  }

  /** Which summary is chosen, and the shape of the fallback. */
  lemma ChooseSummaryRules(draftSummary: string, content: string, ai: Result<string, Fault>)
    ensures var s := ChooseSummary(draftSummary, content, ai);
      && (draftSummary != [] ==> s == draftSummary)
      && (draftSummary == [] && ai.Success? ==> s == ai.value)
      && (draftSummary == [] && ai.Failure? ==>
            && |s| == (if |content| < 150 then |content| else 150) + 3
            && s[..|s| - 3] == content[..|s| - 3]
            && s[|s| - 3..] == "...")
  {
  }

  const PlaceholderPrefix: string := "https://picsum.photos/800/400?random="

  /** The placeholder image for a draft without one, made unique by the time. */
  function PlaceholderImage(now: int): (url: string)
    ensures |url| > |PlaceholderPrefix| && url[..|PlaceholderPrefix|] == PlaceholderPrefix
    ensures url[|PlaceholderPrefix|..] == IntToString(now)
    ensures now >= 0 ==> DigitsValue(url[|PlaceholderPrefix|..]) == now
  {
    PlaceholderPrefix + IntToString(now)
  }

  /** The record `handleSavePost` writes for a draft, given the AI summary result and the time. */
  function PostToSave(draft: Post, ai: Result<string, Fault>, now: int): Post
  {
    draft.(slug := ChooseSlug(draft.slug, draft.title),
           summary := ChooseSummary(draft.summary, draft.content, ai),
           readingTimeMinutes := ReadingTime(draft.content),
           updatedAt := now,
           image := if draft.image != [] then draft.image else PlaceholderImage(now))
  }

  /**
   * A saved record keeps the draft's id, date, title, content, category, tags
   * and featured flag, always has an image, and carries the reading time of
   * its content.
   */
  lemma PostToSaveRecord(draft: Post, ai: Result<string, Fault>, now: int)
    requires draft.content != []
    ensures var p := PostToSave(draft, ai, now);
      && p.id == draft.id && p.date == draft.date
      && p.title == draft.title && p.content == draft.content
      && p.category == draft.category && p.tags == draft.tags && p.isFeatured == draft.isFeatured
      && p.image != [] && (draft.image != [] ==> p.image == draft.image)
      && p.readingTimeMinutes == ReadingTime(draft.content) && p.readingTimeMinutes >= 1
      && p.updatedAt == now
  {
  }

  // ---------------------------------------------------------------------------
  // Dashboard statistics
  // ---------------------------------------------------------------------------

  datatype Stats = Stats(total: nat, featured: nat, categories: nat, subscribers: nat, totalWords: nat)

  /** A post's share of the word total: the split length of its trimmed content, or 0 without content. */
  function PostWords(p: Post): nat
  {
    if p.content == [] then 0 else SplitLength(Trim(p.content))
  }

  /** `posts.reduce(...)`: the sum of the posts' word shares. */
  function TotalWords(posts: seq<Post>): nat
  {
    if posts == [] then 0 else PostWords(posts[0]) + TotalWords(posts[1..])
  }

  function CategoriesUsed(posts: seq<Post>): set<PostCategory>
  {
    set i | 0 <= i < |posts| :: posts[i].category
  }

  function ComputeStats(posts: seq<Post>, subscribers: seq<Subscriber>): Stats
  {
    Stats(|posts|, |Filter(posts, IsFeatured)|, |CategoriesUsed(posts)|, |subscribers|, TotalWords(posts))
  }

  /** Featured posts are among the posts; at most three categories exist and none is used without posts. */
  lemma StatsBounds(posts: seq<Post>, subscribers: seq<Subscriber>)
    ensures var st := ComputeStats(posts, subscribers);
      && st.featured <= st.total
      && st.categories <= 3
      && (st.categories == 0 <==> st.total == 0)
  {
    var used := CategoriesUsed(posts);
    forall c | c in used ensures c in {DevLog, Article, Project} {
      match c
      case DevLog =>
      case Article =>
      case Project =>
    }
    SubsetCardinality(used, {DevLog, Article, Project});
    if posts != [] {
      assert posts[0].category in used;
    }
  }

  lemma SubsetCardinality<T>(a: set<T>, b: set<T>)
    requires a <= b
    ensures |a| <= |b|
  {
    assert b == a + (b - a);
  }

  /** A post with content counts its words, and an all-blank content still counts one. */
  lemma PostWordsAreTokens(p: Post)
    requires p.content != []
    ensures PostWords(p) == WordsForTiming(p.content)
    ensures ReadingTime(p.content) == CeilDiv(PostWords(p), WordsPerMinute)
  {
    SplitLengthOfTrim(p.content);
  }

  /** The word total adds up over a split of the list. */
  lemma {:induction false} TotalWordsAppend(a: seq<Post>, b: seq<Post>)
    ensures TotalWords(a + b) == TotalWords(a) + TotalWords(b)
  {
    if a != [] {
      var ab := a + b;
      assert ab != [] && ab[0] == a[0] && ab[1..] == a[1..] + b;
      TotalWordsAppend(a[1..], b);
    } else {
      assert a + b == b;
    }
  }

  /** Each post with content adds at least one word to the total. */
  lemma {:induction false} TotalWordsAtLeastPostsWithContent(posts: seq<Post>)
    ensures TotalWords(posts) >= |Filter(posts, HasContent)|
  {
    if posts != [] {
      TotalWordsAtLeastPostsWithContent(posts[1..]);
    }
  }

  function HasContent(p: Post): bool { p.content != [] }

  // ---------------------------------------------------------------------------
  // Removing a post from the shown list
  // ---------------------------------------------------------------------------

  function IdIsNot(id: string): Post -> bool
  {
    (p: Post) => p.id != id
  }

  /** `current.filter(p => p.id !== id)`. */
  function RemovePost(posts: seq<Post>, id: string): seq<Post>
  {
    Filter(posts, IdIsNot(id))
  }

  /** Removal drops exactly the posts with that id, keeps the others in order, and is a no-op for an absent id. */
  lemma RemovePostEffect(posts: seq<Post>, id: string)
    ensures var r := RemovePost(posts, id);
      && IsSubsequence(r, posts)
      && (forall i | 0 <= i < |r| :: r[i].id != id)
      && (forall i | 0 <= i < |posts| && posts[i].id != id :: posts[i] in r)
      && ((forall i | 0 <= i < |posts| :: posts[i].id != id) ==> r == posts)
  {
    var r := RemovePost(posts, id);
    FilterIsSubsequence(posts, IdIsNot(id));
    forall i | 0 <= i < |r| ensures r[i].id != id {
      assert IdIsNot(id)(r[i]);
    }
    forall i | 0 <= i < |posts| && posts[i].id != id ensures posts[i] in r {
      assert IdIsNot(id)(posts[i]);
    }
    if forall i | 0 <= i < |posts| :: posts[i].id != id {
      forall i | 0 <= i < |posts| ensures IdIsNot(id)(posts[i]) {
      }
      FilterKeepsAll(posts, IdIsNot(id));
    }
  }

  // ---------------------------------------------------------------------------
  // What a refresh leaves behind
  // ---------------------------------------------------------------------------

  /** The outcome of each store call a refresh makes. */
  datatype RefreshFaults = RefreshFaults(firstFetch: Option<Fault>, seed: Option<Fault>, refetch: Option<Fault>, subscribers: Option<Fault>)

  /**
   * The table and the shown list after `refreshData`: the first fetch's result
   * when it is non-empty; otherwise (an empty table, or a failed fetch, which
   * also reads as empty) the samples are seeded and fetched again, and a failed
   * seed leaves the list empty.
   */
  ghost predicate RefreshOutcome(before: PostTable, samples: seq<Post>, faults: RefreshFaults, now: int,
                                 after: PostTable, shown: seq<Post>)
  {
    if faults.firstFetch.None? && before != map[] then
      after == before && IsListing(shown, after, now)
    else if SeedError(before, samples, faults.seed).Some? then
      after == before && shown == []
    else
      after == Seeded(before, samples) && (if faults.refetch.Some? then shown == [] else IsListing(shown, after, now))
  }

  /** A refresh never loses a row, and shows either nothing or a listing of the table. */
  lemma RefreshKeepsRows(before: PostTable, samples: seq<Post>, faults: RefreshFaults, now: int,
                         after: PostTable, shown: seq<Post>)
    requires WellKeyed(before) && RefreshOutcome(before, samples, faults, now, after, shown)
    ensures before.Keys <= after.Keys
    ensures shown == [] || IsListing(shown, after, now)
  {
    UpsertAllKeeps(before, MapSeq(samples, SeedRow));
  }

  /** After a save, a refresh whose first fetch works shows the saved post, stamped with the save time. */
  lemma SavedPostIsShown(before: PostTable, p: Post, saved: int, samples: seq<Post>, faults: RefreshFaults,
                         now: int, after: PostTable, shown: seq<Post>)
    requires WellKeyed(before) && faults.firstFetch.None?
    requires RefreshOutcome(Upsert(before, RowOfPost(p, saved)), samples, faults, now, after, shown)
    ensures exists i | 0 <= i < |shown| :: shown[i] == p.(updatedAt := saved)
  {
    var rows := Upsert(before, RowOfPost(p, saved));
    assert p.id in rows;
    assert rows != map[];
    ListingShowsRow(shown, rows, now, p.id);
    SavedRowRoundTrip(p, saved, now);
  }

  // ---------------------------------------------------------------------------
  // The console
  // ---------------------------------------------------------------------------

  datatype SaveFaults = SaveFaults(save: Option<Fault>, refresh: RefreshFaults)

  /** How `handleSavePost` ends: refused by validation, failed in the store, or saved. */
  datatype SaveResult = Rejected | Failed(fault: Fault) | Saved(post: Post)

  /** The editor's state before anything is opened (an empty partial post). */
  const EmptyDraft: Post := Post([], [], [], [], [], [], 0, Article, [], 0, false, 0)

  class AdminConsole {
    const store: ContentStore
    var posts: seq<Post>
    var subscribers: seq<Subscriber>
    var draft: Post
    var isEditing: bool
    var postToDelete: Option<string>
    /** How many calls the console has made to the AI assistant. */
    ghost var aiCalls: nat

    ghost predicate Valid()
      reads this, store
    {
      store.Valid()
    }

    constructor (store: ContentStore)
      requires store.Valid()
      ensures Valid() && this.store == store
      ensures posts == [] && subscribers == [] && draft == EmptyDraft && !isEditing && postToDelete.None? && aiCalls == 0
    {
      this.store := store;
      posts := [];
      subscribers := [];
      draft := EmptyDraft;
      isEditing := false;
      postToDelete := None;
      aiCalls := 0;
    }

    /** `refreshData`: reloads the post list, seeding the table when the fetch comes back empty, then the subscribers. */
    method RefreshData(now: int, faults: RefreshFaults)
      requires Valid()
      modifies this, store
      ensures Valid()
      ensures draft == old(draft) && isEditing == old(isEditing) && postToDelete == old(postToDelete) && aiCalls == old(aiCalls)
      ensures store.subscribers == old(store.subscribers)
      ensures RefreshOutcome(old(store.posts), store.samples, faults, now, store.posts, posts)
      ensures faults.subscribers.Some? ==> subscribers == []
      ensures faults.subscribers.None? ==> multiset(subscribers) == multiset(store.subscribers) && SortedDesc(subscribers, CreatedAtOf)
    {
      var fetched := store.GetPosts(now, faults.firstFetch);
      if faults.firstFetch.None? {
        ListingLength(fetched, store.posts, now);
      }
      if |fetched| == 0 {
        var seeded := store.SeedData(faults.seed);
        if seeded.Pass? {
          fetched := store.GetPosts(now, faults.refetch);
        }
      }
      posts := fetched;
      subscribers := store.GetSubscribers(faults.subscribers);
    }

    /**
     * `handleCreateNew`: opens the editor on a fresh draft with a new id and the
     * current time. The draft's `updatedAt` is absent there; `now` stands in for
     * it, and a save overwrites it before anything reads it.
     */
    method CreateNew(newId: string, now: int)
      modifies this
      ensures draft == Post(newId, [], [], [], [], [], now, Article, [], now, false, 0)
      ensures isEditing
      ensures posts == old(posts) && subscribers == old(subscribers) && postToDelete == old(postToDelete) && aiCalls == old(aiCalls)
    {
      draft := Post(newId, [], [], [], [], [], now, Article, [], now, false, 0);
      isEditing := true;
    }

    /** `handleEdit`: opens the editor on a copy of an existing post. */
    method Edit(p: Post)
      modifies this
      ensures draft == p && isEditing
      ensures posts == old(posts) && subscribers == old(subscribers) && postToDelete == old(postToDelete) && aiCalls == old(aiCalls)
    {
      draft := p;
      isEditing := true;
    }

    /** The editor's cancel button: leaves the editor, keeping the draft. */
    method Cancel()
      modifies this
      ensures !isEditing
      ensures draft == old(draft) && posts == old(posts) && subscribers == old(subscribers) && postToDelete == old(postToDelete) && aiCalls == old(aiCalls)
    {
      isEditing := false;
    }

    /** The row's delete button: opens the confirmation for that id. */
    method RequestDelete(id: string)
      modifies this
      ensures postToDelete == Some(id)
      ensures draft == old(draft) && isEditing == old(isEditing) && posts == old(posts) && subscribers == old(subscribers) && aiCalls == old(aiCalls)
    {
      postToDelete := Some(id);
    }

    /** The confirmation's cancel button. */
    method AbortDelete()
      modifies this
      ensures postToDelete.None?
      ensures draft == old(draft) && isEditing == old(isEditing) && posts == old(posts) && subscribers == old(subscribers) && aiCalls == old(aiCalls)
    {
      postToDelete := None;
    }

    /**
     * `executeDelete`: without a pending id (or with an empty one) nothing
     * happens; otherwise the store deletes it, the shown list drops it on
     * success, and the confirmation closes either way.
     */
    method ExecuteDelete(fault: Option<Fault>)
      requires Valid()
      modifies this, store
      ensures Valid()
      ensures draft == old(draft) && isEditing == old(isEditing) && subscribers == old(subscribers) && aiCalls == old(aiCalls)
      ensures store.subscribers == old(store.subscribers)
      ensures old(postToDelete).None? || old(postToDelete) == Some([]) ==>
        postToDelete == old(postToDelete) && posts == old(posts) && store.posts == old(store.posts)
      ensures old(postToDelete).Some? && old(postToDelete) != Some([]) ==>
        var id := old(postToDelete).value;
        && postToDelete.None?
        && (fault.None? ==> posts == RemovePost(old(posts), id) && store.posts == DeleteById(old(store.posts), id))
        && (fault.Some? ==> posts == old(posts) && store.posts == old(store.posts))
    {
      if postToDelete.None? || postToDelete.value == [] {
        return;
      }
      var id := postToDelete.value;
      var o := store.DeletePost(id, fault);
      if o.Pass? {
        posts := RemovePost(posts, id);
      }
      postToDelete := None;
    }

    /** `handleDeleteAll`: after confirmation, empties the table (sentinel aside) and, on success, the shown list. */
    method DeleteAll(confirmed: bool, fault: Option<Fault>)
      requires Valid()
      modifies this, store
      ensures Valid()
      ensures draft == old(draft) && isEditing == old(isEditing) && postToDelete == old(postToDelete)
      ensures subscribers == old(subscribers) && aiCalls == old(aiCalls) && store.subscribers == old(store.subscribers)
      ensures !confirmed || fault.Some? ==> posts == old(posts) && store.posts == old(store.posts)
      ensures confirmed && fault.None? ==> posts == [] && store.posts == DeleteAllButSentinel(old(store.posts))
    {
      if !confirmed {
        return;
      }
      var o := store.DeleteAllData(fault);
      if o.Pass? {
        posts := [];
      }
    }

    /**
     * `handleSavePost`: refuses a draft without title or content before any
     * call; otherwise asks the AI for a summary when the draft has none, writes
     * the derived record, and on success refreshes and leaves the editor. A
     * failed write leaves everything but the AI call count as it was.
     */
    method SavePost(ai: AiReply, now: int, faults: SaveFaults) returns (res: SaveResult)
      requires Valid()
      modifies this, store
      ensures Valid()
      ensures res == Rejected <==> old(draft.title) == [] || old(draft.content) == []
      ensures res == Rejected ==>
        && posts == old(posts) && subscribers == old(subscribers) && draft == old(draft)
        && isEditing == old(isEditing) && postToDelete == old(postToDelete) && aiCalls == old(aiCalls)
        && store.posts == old(store.posts) && store.subscribers == old(store.subscribers)
      ensures res != Rejected ==>
        && draft == old(draft) && postToDelete == old(postToDelete) && store.subscribers == old(store.subscribers)
        && aiCalls == old(aiCalls) + (if old(draft.summary) == [] then 1 else 0)
      ensures var p := PostToSave(old(draft), GenerateSummary(ai), now);
        var candidate := Upsert(old(store.posts), RowOfPost(p, now));
        res != Rejected ==>
          match CheckWrite(candidate, faults.save)
          case Some(f) =>
            res == Failed(f) && store.posts == old(store.posts)
            && posts == old(posts) && subscribers == old(subscribers) && isEditing == old(isEditing)
          case None =>
            res == Saved(p) && !isEditing
            && RefreshOutcome(candidate, store.samples, faults.refresh, now, store.posts, posts)
            && (faults.refresh.subscribers.Some? ==> subscribers == [])
            && (faults.refresh.subscribers.None? ==>
                  multiset(subscribers) == multiset(old(store.subscribers)) && SortedDesc(subscribers, CreatedAtOf))
    {
      if draft.title == [] || draft.content == [] {
        return Rejected;
      }
      var summary := GenerateSummary(ai);
      if draft.summary == [] {
        aiCalls := aiCalls + 1;
      }
      var p := PostToSave(draft, summary, now);
      ghost var candidate := Upsert(store.posts, RowOfPost(p, now));
      var o := store.SavePost(p, now, faults.save);
      if o.Fail? {
        assert CheckWrite(candidate, faults.save) == Some(o.error);
        return Failed(o.error);
      }
      assert store.posts == candidate;
      RefreshData(now, faults.refresh);
      isEditing := false;
      return Saved(p);
    }

    /** `fixGrammarAI`: replaces the draft's content with the assistant's correction; nothing changes without content or on failure. */
    method FixGrammar(reply: AiReply)
      modifies this
      ensures posts == old(posts) && subscribers == old(subscribers) && isEditing == old(isEditing) && postToDelete == old(postToDelete)
      ensures old(draft.content) == [] ==> draft == old(draft) && aiCalls == old(aiCalls)
      ensures old(draft.content) != [] ==>
        && aiCalls == old(aiCalls) + 1
        && draft == (match TextAssist.FixGrammar(old(draft.content), reply)
                     case Success(fixed) => old(draft).(content := fixed)
                     case Failure(_) => old(draft))
    {
      if draft.content == [] {
        return;
      }
      aiCalls := aiCalls + 1;
      var fixed := TextAssist.FixGrammar(draft.content, reply);
      if fixed.Success? {
        draft := draft.(content := fixed.value);
      }
    }
  }
}
