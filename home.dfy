/**
 * The home page: the featured and recent lists derived from a date-descending
 * re-sort of the store's listing, the empty state shown when there is nothing
 * to list, and the newsletter form's status machine.
 */
module Home {
  import opened Wrappers
  import opened Seqs
  import opened JsText
  import opened Types
  import opened Storage

  // ---------------------------------------------------------------------------
  // Featured and recent posts
  // ---------------------------------------------------------------------------

  const FeaturedLimit: nat := 3
  const RecentLimit: nat := 5

  /** `[...allPosts].sort((a, b) => date(b) - date(a))`: a stable sort, newest first. */
  function SortByDate(posts: seq<Post>): seq<Post>
  {
    SortDesc(posts, DateOf)
  }

  /** `sorted.filter(p => p.isFeatured).slice(0, 3)`. */
  function Featured(sorted: seq<Post>): seq<Post>
  {
    Take(Filter(sorted, IsFeatured), FeaturedLimit)
  }

  /** `sorted.slice(0, 5)`. */
  function Recent(sorted: seq<Post>): seq<Post>
  {
    Take(sorted, RecentLimit)
  }

  /**
   * The re-sort is a permutation of the fetched posts, newest first, and it is
   * stable: posts sharing a date keep the order they were fetched in.
   */
  lemma SortByDateSpec(posts: seq<Post>)
    ensures multiset(SortByDate(posts)) == multiset(posts)
    ensures SortedDesc(SortByDate(posts), DateOf)
    ensures forall d :: Filter(SortByDate(posts), HasKey(DateOf, d)) == Filter(posts, HasKey(DateOf, d))
  {
    SortDescSorted(posts, DateOf);
    forall d ensures Filter(SortByDate(posts), HasKey(DateOf, d)) == Filter(posts, HasKey(DateOf, d)) {
      SortDescStable(posts, DateOf, d);
    }
  }

  /**
   * Featured posts are at most three featured posts of the sorted list, in its
   * order, and fewer only when there are no more; recent posts are the first
   * five of the sorted list, or all of it when it is shorter.
   */
  lemma HomeListsShape(sorted: seq<Post>)
    ensures var f := Featured(sorted);
      && |f| <= 3
      && (forall i | 0 <= i < |f| :: f[i].isFeatured)
      && IsSubsequence(f, sorted)
      && (|f| < 3 ==> f == Filter(sorted, IsFeatured))
    ensures Recent(sorted) == sorted[..if |sorted| < 5 then |sorted| else 5]
  {
    var all := Filter(sorted, IsFeatured);
    var f := Featured(sorted);
    FilterIsSubsequence(sorted, IsFeatured);
    PrefixIsSubsequence(all, |f|);
    SubsequenceTransitive(f, all, sorted);
    forall i | 0 <= i < |f| ensures f[i].isFeatured {
      assert IsFeatured(all[i]);
    }
  }

  /** The page shows its empty state exactly when the fetch returned no posts. */
  lemma EmptyStateIffNoPosts(posts: seq<Post>)
    ensures (Featured(SortByDate(posts)) == [] && Recent(SortByDate(posts)) == []) <==> posts == []
  {
    var sorted := SortByDate(posts);
    if posts != [] {
      assert |Recent(sorted)| > 0;
    }
  }

  // ---------------------------------------------------------------------------
  // Newsletter form
  // ---------------------------------------------------------------------------

  /** `subStatus`. */
  datatype SubscribeStatus = Idle | Sending | Succeeded | Failed

  const MissingTableText: string := "relation \"subscribers\" does not exist"
  const MaintenanceMessage: string := "Sistem güncellemesi yapılıyor. Lütfen daha sonra tekrar deneyin."
  const CheckAddressMessage: string := "Bir hata oluştu. Lütfen e-posta adresinizi kontrol edin."

  /** The message shown for a failed subscription, chosen by the error's text alone. */
  function FailureMessage(errorText: string): (m: string)
    ensures m == MaintenanceMessage || m == CheckAddressMessage
  {
    if Includes(errorText, MissingTableText) then MaintenanceMessage else CheckAddressMessage
  }

  /** An error whose text reports the missing subscribers table, wherever in the text, gets the maintenance message. */
  lemma MissingTableGetsMaintenance(before: string, after: string)
    ensures FailureMessage(before + MissingTableText + after) == MaintenanceMessage
  {
    var s := before + MissingTableText + after;
    assert s[|before|..|before| + |MissingTableText|] == MissingTableText;
    assert OccursAt(s, MissingTableText, |before|);
    IncludesIffOccurs(s, MissingTableText);
  }

  /** A malformed address is rejected before the database, and the page asks the reader to check it. */
  lemma InvalidAddressGetsCheckMessage(subs: seq<Subscriber>, email: string, fault: Option<Fault>)
    requires !ValidEmail(email)
    ensures SubscribeOutcome(subs, email, fault).Fail?
    ensures FailureMessage(SubscribeOutcome(subs, email, fault).error.message) == CheckAddressMessage
  {
    if Includes(InvalidEmailMessage, MissingTableText) {
      IncludesNeedsRoom(InvalidEmailMessage, MissingTableText);
      assert false;
    }
  }

  // ---------------------------------------------------------------------------
  // The page
  // ---------------------------------------------------------------------------

  class HomePage {
    const store: ContentStore
    var featuredPosts: seq<Post>
    var recentPosts: seq<Post>
    var isLoading: bool
    var email: string
    var subStatus: SubscribeStatus
    var subMessage: string
    /** The list the last load received from the store. */
    ghost var fetched: seq<Post>

    constructor (store: ContentStore)
      ensures this.store == store
      ensures featuredPosts == [] && recentPosts == [] && isLoading
      ensures email == [] && subStatus == Idle && subMessage == [] && fetched == []
    {
      this.store := store;
      featuredPosts := [];
      recentPosts := [];
      isLoading := true;
      email := [];
      subStatus := Idle;
      subMessage := [];
      fetched := [];
    }

    /** The empty-state screen: loading is over and both lists are empty. */
    predicate ShowsEmptyState()
      reads this
    {
      !isLoading && featuredPosts == [] && recentPosts == []
    }

    /**
     * `loadData`: fetch the listing, re-sort it newest first, and publish the
     * featured and recent lists. A failed fetch reads as an empty listing.
     * The empty state shows exactly when the fetch failed or the table is empty.
     * Only the loading flag's final value is set: no caller observes it mid-fetch.
     */
    method LoadData(now: int, fault: Option<Fault>)
      requires store.Valid()
      modifies this
      ensures (fault.Some? ==> fetched == []) && (fault.None? ==> IsListing(fetched, store.posts, now))
      ensures featuredPosts == Featured(SortByDate(fetched)) && recentPosts == Recent(SortByDate(fetched))
      ensures !isLoading
      ensures ShowsEmptyState() <==> fault.Some? || |store.posts| == 0
      ensures email == old(email) && subStatus == old(subStatus) && subMessage == old(subMessage)
    {
      var all := store.GetPosts(now, fault);
      var sorted := SortByDate(all);
      featuredPosts, recentPosts, fetched, isLoading := Featured(sorted), Recent(sorted), all, false;
      EmptyStateIffNoPosts(all);
      if fault.None? {
        ListingLength(all, store.posts, now);
      }
    }

    /**
     * `handleSubscribe`: an empty field does nothing. Otherwise the address is
     * sent to the store; success clears the field, failure keeps it and shows
     * the message its error text selects.
     */
    method HandleSubscribe(newId: string, now: int, fault: Option<Fault>)
      requires store.Valid()
      modifies this, store
      ensures store.Valid() && store.posts == old(store.posts)
      ensures featuredPosts == old(featuredPosts) && recentPosts == old(recentPosts) && isLoading == old(isLoading)
      ensures fetched == old(fetched)
      ensures old(email) == [] ==>
        email == old(email) && subStatus == old(subStatus) && subMessage == old(subMessage)
        && store.subscribers == old(store.subscribers)
      ensures old(email) != [] ==>
        var o := SubscribeOutcome(old(store.subscribers), old(email), fault);
        && subStatus == (if o.Pass? then Succeeded else Failed)
        && email == (if o.Pass? then [] else old(email))
        && subMessage == (if o.Pass? then [] else FailureMessage(o.error.message))
        && store.subscribers == (if ValidEmail(old(email)) && InsertError(old(store.subscribers), old(email), fault).None?
                                 then old(store.subscribers) + [Subscriber(newId, old(email), now)]
                                 else old(store.subscribers))
    {
      if email == [] {
        return;
      }
      subStatus := Sending;
      subMessage := [];
      var o := store.AddSubscriber(email, newId, now, fault);
      if o.Pass? {
        subStatus := Succeeded;
        email := [];
      } else {
        subStatus := Failed;
        subMessage := FailureMessage(o.error.message);
      }
    }
  }
}
