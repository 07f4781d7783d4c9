/**
 * The blog list page's filter: an optional category filter followed by an
 * optional search over title, summary and tags, and the category menu.
 * The page reads the second text field as `excerpt`, which the post record
 * does not have; here the search reads the record's `summary` in its place.
 */
module BlogList {
  import opened Seqs
  import opened JsText
  import opened Types

  /** The menu entry that switches the category filter off. */
  const AllLabel: string := "Tümü"

  /** `['Tümü', ...Object.values(PostCategory)]`: the categories in their declaration order. */
  function CategoryMenu(): (menu: seq<string>)
    ensures |menu| == 4 && menu[0] == AllLabel
    ensures forall c: PostCategory :: CategoryName(c) in menu[1..]
    ensures menu[1..] == [CategoryName(DevLog), CategoryName(Article), CategoryName(Project)]
  {
    [AllLabel, CategoryName(DevLog), CategoryName(Article), CategoryName(Project)]
  }

  /** The menu entries are distinct, so each selects one filter. */
  lemma CategoryMenuDistinct()
    ensures forall i, j | 0 <= i < j < |CategoryMenu()| :: CategoryMenu()[i] != CategoryMenu()[j]
  {
    var m := CategoryMenu();
    assert m[0][0] == 'T';
    assert m[1][0] == 'D';
    assert m[2][0] == 'M';
    assert m[3][0] == 'P';
  }

  /** `p.category === activeCategory`. */
  function InCategory(active: string): Post -> bool
  {
    (p: Post) => CategoryName(p.category) == active
  }

  /** The whole category step: no filter for 'Tümü', else the equality test. */
  function CategoryTest(active: string): Post -> bool
  {
    (p: Post) => active == AllLabel || InCategory(active)(p)
  }

  /** Some tag of the post, lower-cased, includes `q`. */
  predicate SomeTagIncludes(tags: seq<string>, q: string)
  {
    exists i | 0 <= i < |tags| :: Includes(ToLower(tags[i]), q)
  }

  /** The search test for the already lower-cased query `q`. */
  function MatchesQuery(q: string): Post -> bool
  {
    (p: Post) => Includes(ToLower(p.title), q) || Includes(ToLower(p.summary), q) || SomeTagIncludes(p.tags, q)
  }

  /** The whole search step: no filter for a blank query, else the untrimmed, lower-cased query must match. */
  function SearchTest(query: string): Post -> bool
  {
    (p: Post) => Trim(query) == [] || MatchesQuery(ToLower(query))(p)
  }

  /** The filter effect: category first, then search, each applied only when active. */
  function FilterPosts(posts: seq<Post>, active: string, query: string): seq<Post>
  {
    var byCategory := if active != AllLabel then Filter(posts, InCategory(active)) else posts;
    if Trim(query) != [] then Filter(byCategory, MatchesQuery(ToLower(query))) else byCategory
  }

  /** Each step filters by its test or, switched off, keeps everything its test passes. */
  lemma {:induction false} FilterPostsIsBoth(posts: seq<Post>, active: string, query: string)
    ensures FilterPosts(posts, active, query) == Filter(posts, Both(CategoryTest(active), SearchTest(query)))
  {
    var cat := CategoryTest(active);
    var search := SearchTest(query);
    var byCategory := if active != AllLabel then Filter(posts, InCategory(active)) else posts;
    if active != AllLabel {
      FilterSameTest(posts, InCategory(active), cat);
    } else {
      FilterKeepsAll(posts, cat);
    }
    if Trim(query) != [] {
      FilterSameTest(byCategory, MatchesQuery(ToLower(query)), search);
    } else {
      FilterKeepsAll(byCategory, search);
    }
    FilterFilter(posts, cat, search);
  }

  /**
   * The result keeps, in their order, exactly the posts that pass both the
   * category step and the search step.
   */
  lemma FilterPostsSpec(posts: seq<Post>, active: string, query: string)
    ensures FilterPosts(posts, active, query) == Filter(posts, Both(CategoryTest(active), SearchTest(query)))
    ensures IsSubsequence(FilterPosts(posts, active, query), posts)
    ensures forall p :: p in FilterPosts(posts, active, query) <==>
      p in posts && CategoryTest(active)(p) && SearchTest(query)(p)
  {
    var both := Both(CategoryTest(active), SearchTest(query));
    FilterPostsIsBoth(posts, active, query);
    FilterIsSubsequence(posts, both);
    forall p ensures p in Filter(posts, both) <==> p in posts && both(p) {
      FilterMembership(posts, both, p);
    }
  }

  /** Searching first and then filtering by category gives the same list. */
  lemma FiltersCommute(posts: seq<Post>, active: string, query: string)
    ensures FilterPosts(posts, active, query)
      == Filter(Filter(posts, SearchTest(query)), CategoryTest(active))
  {
    FilterPostsSpec(posts, active, query);
    FilterFilter(posts, CategoryTest(active), SearchTest(query));
    FilterCommutes(posts, CategoryTest(active), SearchTest(query));
  }

  /** 'Tümü' with a blank query shows every post; a category with a blank query shows exactly its posts. */
  lemma BlankQueryShowsCategory(posts: seq<Post>, active: string, query: string)
    requires Trim(query) == []
    ensures active == AllLabel ==> FilterPosts(posts, active, query) == posts
    ensures forall c: PostCategory :: active == CategoryName(c) ==>
      FilterPosts(posts, active, query) == Filter(posts, (p: Post) => p.category == c)
  {
    forall c: PostCategory | active == CategoryName(c)
      ensures FilterPosts(posts, active, query) == Filter(posts, (p: Post) => p.category == c)
    {
      forall p: Post ensures InCategory(active)(p) == (p.category == c) {
        CategoryNameInjective(p.category, c);
      }
      FilterSameTest(posts, InCategory(active), (p: Post) => p.category == c);
    }
  }

  /**
   * The query is lower-cased but not trimmed: padded with a space, a query
   * longer than every searched field of a post never matches it, even when
   * the title is the query's text.
   */
  lemma PaddedQueryIsNotTrimmed(p: Post, word: string)
    requires word != [] && !IsWhitespace(word[0])
    requires p.title == word && |p.summary| <= |word| && forall i | 0 <= i < |p.tags| :: |p.tags[i]| <= |word|
    ensures Trim(" " + word) != []
    ensures !SearchTest(" " + word)(p)
  {
    var query := " " + word;
    assert !IsWhitespace(query[1]);
    var q := ToLower(query);
    assert |q| == |word| + 1;
    assert !Includes(ToLower(p.title), q) by {
      if Includes(ToLower(p.title), q) {
        IncludesNeedsRoom(ToLower(p.title), q);
      }
    }
    assert !Includes(ToLower(p.summary), q) by {
      if Includes(ToLower(p.summary), q) {
        IncludesNeedsRoom(ToLower(p.summary), q);
      }
    }
    assert !SomeTagIncludes(p.tags, q) by {
      forall i | 0 <= i < |p.tags| ensures !Includes(ToLower(p.tags[i]), q) {
        if Includes(ToLower(p.tags[i]), q) {
          IncludesNeedsRoom(ToLower(p.tags[i]), q);
        }
      }
    }
    assert !MatchesQuery(q)(p);
  }
}
