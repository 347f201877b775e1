/** The blog and service card filters of the page bundle. A tab group is the
    list of filter tabs in document order; the "active" class is the only state
    the filters keep. */
module Filters {
  import opened Wrappers
  import opened Text

  /** The category every card matches. */
  const ALL := "all"

  /** A filter tab: its category code and whether it carries the active class. */
  datatype Tab = Tab(filter: string, active: bool)

  datatype BlogCard = BlogCard(title: string, category: string)

  datatype ServiceCard = ServiceCard(category: string)

  // ---------------------------------------------------------------- tab group

  /** Position of the first active tab (what `querySelector` of the active tab
      returns), or `None` when no tab is active. */
  function FirstActive(tabs: seq<Tab>): (r: Option<nat>)
    ensures r.None? <==> forall j :: 0 <= j < |tabs| ==> !tabs[j].active
    ensures r.Some? ==> r.value < |tabs| && tabs[r.value].active
    ensures r.Some? ==> forall j :: 0 <= j < r.value ==> !tabs[j].active
    decreases |tabs|
  {
    if tabs == [] then None
    else if tabs[0].active then Some(0)
    else
      match FirstActive(tabs[1..])
      case None => None
      case Some(k) => Some(k + 1)
  }

  /** The category the active tab selects; "all" when no tab is active. */
  function ActiveCategory(tabs: seq<Tab>): string {
    match FirstActive(tabs)
    case None => ALL
    case Some(i) => tabs[i].filter
  }

  /** A click on tab `i`: the active class is removed from every tab of the
      group, then added to the clicked one. */
  function ClickTab(tabs: seq<Tab>, i: nat): (r: seq<Tab>)
    requires i < |tabs|
    ensures |r| == |tabs|
    ensures forall j :: 0 <= j < |r| ==> r[j].filter == tabs[j].filter
    ensures forall j :: 0 <= j < |r| ==> (r[j].active <==> j == i)
  {
    seq(|tabs|, j requires 0 <= j < |tabs| => Tab(tabs[j].filter, j == i))
  }

  /** After a click the filter category is the clicked tab's, whatever was
      active before. */
  lemma ClickSelectsCategory(tabs: seq<Tab>, i: nat)
    requires i < |tabs|
    ensures FirstActive(ClickTab(tabs, i)) == Some(i)
    ensures ActiveCategory(ClickTab(tabs, i)) == tabs[i].filter
  {
    var r := ClickTab(tabs, i);
    assert r[i].active;
  }

  /** With no active tab every card passes the category test. */
  lemma NoActiveTabMeansAll(tabs: seq<Tab>)
    requires forall j :: 0 <= j < |tabs| ==> !tabs[j].active
    ensures ActiveCategory(tabs) == ALL
  {
  }

  predicate MatchesCategory(category: string, cardCategory: string) {
    category == ALL || cardCategory == category
  }

  // ---------------------------------------------------------------- blog

  /** The text of the search box, if the page has one. */
  function QueryOf(search: Option<string>): string {
    match search
    case Some(v) => Lower(v)
    case None => ""
  }

  /** One `filterBlog` pass: card `i` stays displayed exactly when it passes the
      category test and its lower-cased title contains the lower-cased query. */
  function FilterBlog(search: Option<string>, tabs: seq<Tab>, cards: seq<BlogCard>): (shown: seq<bool>)
    ensures |shown| == |cards|
    ensures forall i :: 0 <= i < |cards| ==>
      (shown[i] <==> MatchesCategory(ActiveCategory(tabs), cards[i].category)
                     && Occurs(QueryOf(search), Lower(cards[i].title)))
  {
    var query := QueryOf(search);
    var category := ActiveCategory(tabs);
    seq(|cards|, i requires 0 <= i < |cards| =>
      MatchesCategory(category, cards[i].category) && Includes(Lower(cards[i].title), query))
  }

  /** An empty (or absent) search box leaves the decision to the category. */
  lemma EmptyQueryIsCategoryOnly(search: Option<string>, tabs: seq<Tab>, cards: seq<BlogCard>)
    requires search.None? || search.value == ""
    ensures forall i :: 0 <= i < |cards| ==>
      (FilterBlog(search, tabs, cards)[i] <==> MatchesCategory(ActiveCategory(tabs), cards[i].category))
  {
  }

  /** The blog section: search box, tab group, cards and which cards are
      displayed. */
  datatype BlogPage = BlogPage(search: Option<string>, tabs: seq<Tab>, cards: seq<BlogCard>, shown: seq<bool>)
  {
    /** The displayed cards are those the current search and tabs select. */
    ghost predicate Filtered() {
      shown == FilterBlog(search, tabs, cards)
    }
  }

  /** Load: the filter runs once when there are cards; otherwise nothing moves. */
  function BlogLoad(p: BlogPage): (r: BlogPage)
    ensures |p.cards| > 0 ==> r.Filtered()
    ensures |p.cards| == 0 ==> r == p
    ensures r.search == p.search && r.tabs == p.tabs && r.cards == p.cards
  {
    if |p.cards| > 0 then p.(shown := FilterBlog(p.search, p.tabs, p.cards)) else p
  }

  /** Typing into the search box re-filters; without a search box there is
      nothing to type into. */
  function BlogInput(p: BlogPage, value: string): (r: BlogPage)
    ensures p.search.Some? ==> r.search == Some(value) && r.Filtered()
    ensures p.search.None? ==> r == p
    ensures r.tabs == p.tabs && r.cards == p.cards
  {
    if p.search.Some? then
      var q := p.(search := Some(value));
      q.(shown := FilterBlog(q.search, q.tabs, q.cards))
    else p
  }

  /** Clicking blog tab `i`: it becomes the only active tab, then the filter runs. */
  function BlogTabClick(p: BlogPage, i: nat): (r: BlogPage)
    requires i < |p.tabs|
    ensures r.Filtered()
    ensures |r.tabs| == |p.tabs|
    ensures forall j :: 0 <= j < |r.tabs| ==> r.tabs[j].filter == p.tabs[j].filter
    ensures forall j :: 0 <= j < |r.tabs| ==> (r.tabs[j].active <==> j == i)
    ensures r.search == p.search && r.cards == p.cards
  {
    var q := p.(tabs := ClickTab(p.tabs, i));
    q.(shown := FilterBlog(q.search, q.tabs, q.cards))
  }

  /** After clicking a blog tab, a card is displayed iff its category is the
      clicked tab's (or that tab is "all") and its title contains the query. */
  lemma BlogClickVisibility(p: BlogPage, i: nat, k: nat)
    requires i < |p.tabs| && k < |p.cards|
    ensures BlogTabClick(p, i).shown[k] <==>
      MatchesCategory(p.tabs[i].filter, p.cards[k].category)
      && Occurs(QueryOf(p.search), Lower(p.cards[k].title))
  {
  }

  // ---------------------------------------------------------------- services

  /** One `filterServices` pass: card `i` is displayed exactly when it passes
      the category test. */
  function FilterServices(tabs: seq<Tab>, cards: seq<ServiceCard>): (shown: seq<bool>)
    ensures |shown| == |cards|
    ensures forall i :: 0 <= i < |cards| ==>
      (shown[i] <==> ActiveCategory(tabs) == ALL || cards[i].category == ActiveCategory(tabs))
  {
    var category := ActiveCategory(tabs);
    seq(|cards|, i requires 0 <= i < |cards| => MatchesCategory(category, cards[i].category))
  }

  datatype ServicePage = ServicePage(tabs: seq<Tab>, cards: seq<ServiceCard>, shown: seq<bool>)
  {
    ghost predicate Filtered() {
      shown == FilterServices(tabs, cards)
    }
  }

  /** Load: with cards present and no active tab the first tab is activated,
      then the filter runs once. Without cards nothing moves. */
  function ServiceLoad(p: ServicePage): (r: ServicePage)
    ensures |p.cards| == 0 ==> r == p
    ensures |p.cards| > 0 ==> r.Filtered()
    ensures r.cards == p.cards && |r.tabs| == |p.tabs|
    ensures forall j :: 0 <= j < |p.tabs| ==> r.tabs[j].filter == p.tabs[j].filter
    ensures FirstActive(p.tabs).Some? ==> r.tabs == p.tabs
    ensures |p.cards| > 0 && |p.tabs| > 0 ==> FirstActive(r.tabs).Some?
    ensures |p.cards| > 0 && |p.tabs| > 0 && FirstActive(p.tabs).None? ==>
      FirstActive(r.tabs) == Some(0) && r.tabs[0].active
      && forall j :: 0 < j < |p.tabs| ==> r.tabs[j] == p.tabs[j]
    ensures |p.cards| > 0 && |p.tabs| > 0 && FirstActive(p.tabs).None? ==>
      ActiveCategory(r.tabs) == p.tabs[0].filter
  {
    if |p.cards| == 0 then p
    else
      var tabs :=
        if FirstActive(p.tabs).None? && |p.tabs| > 0
        then p.tabs[0 := p.tabs[0].(active := true)]
        else p.tabs;
      assert |p.tabs| > 0 ==> FirstActive(tabs).Some? && tabs[0].filter == p.tabs[0].filter;
      ServicePage(tabs, p.cards, FilterServices(tabs, p.cards))
  }

  /** At load with cards and no active tab, the services shown are those of
      the first tab's category; with an active tab, those of its category. */
  lemma ServiceLoadVisibility(p: ServicePage, k: nat)
    requires k < |p.cards| && |p.tabs| > 0
    ensures FirstActive(p.tabs).None? ==>
      (ServiceLoad(p).shown[k] <==> p.tabs[0].filter == ALL || p.cards[k].category == p.tabs[0].filter)
    ensures FirstActive(p.tabs).Some? ==>
      (ServiceLoad(p).shown[k] <==> MatchesCategory(ActiveCategory(p.tabs), p.cards[k].category))
  {
  }

  /** Clicking service tab `i`: it becomes the only active tab, then the filter runs. */
  function ServiceTabClick(p: ServicePage, i: nat): (r: ServicePage)
    requires i < |p.tabs|
    ensures r.Filtered()
    ensures |r.tabs| == |p.tabs|
    ensures forall j :: 0 <= j < |r.tabs| ==> r.tabs[j].filter == p.tabs[j].filter
    ensures forall j :: 0 <= j < |r.tabs| ==> (r.tabs[j].active <==> j == i)
    ensures r.cards == p.cards
  {
    var tabs := ClickTab(p.tabs, i);
    ServicePage(tabs, p.cards, FilterServices(tabs, p.cards))
  }

  /** After clicking a service tab, a card is displayed iff the clicked tab is
      "all" or names the card's category. */
  lemma ServiceClickVisibility(p: ServicePage, i: nat, k: nat)
    requires i < |p.tabs| && k < |p.cards|
    ensures ServiceTabClick(p, i).shown[k] <==>
      p.tabs[i].filter == ALL || p.cards[k].category == p.tabs[i].filter
  {
  }

  /** The lower-cased query "ocean" and the two sample blog titles. */
  lemma LowerExamples()
    ensures Lower("ocean") == "ocean" && Lower("") == ""
    ensures Lower("Ocean Cleanup") == "ocean cleanup"
    ensures Lower("Recycling 101") == "recycling 101"
  {
  }

  /** "ocean" does not occur in "recycling 101": it has no letter o. */
  lemma OceanNotInRecycling()
    ensures !Occurs("ocean", "recycling 101")
  {
    var t := "recycling 101";
    assert 'o' !in t;
    forall i | 0 <= i <= |t| - 5
      ensures !OccursAt("ocean", t, i)
    {
      assert t[i..i + 5][0] == t[i] && t[i] in t;
    }
  }

  /** Of the two example titles only "Ocean Cleanup" contains "ocean". */
  lemma OceanExampleTitles()
    ensures QueryOf(Some("ocean")) == "ocean"
    ensures !Occurs("ocean", Lower("Recycling 101"))
    ensures Occurs("ocean", Lower("Ocean Cleanup"))
  {
    LowerExamples();
    OceanNotInRecycling();
    assert OccursAt("ocean", "ocean cleanup", 0);
  }

  /** Query "ocean" under the "all" tab shows only "Ocean Cleanup". */
  lemma BlogExampleQuery()
    ensures FilterBlog(Some("ocean"), [Tab("all", true), Tab("tips", false)],
                       [BlogCard("Recycling 101", "tips"), BlogCard("Ocean Cleanup", "news")])
            == [false, true]
  {
    var tabs := [Tab("all", true), Tab("tips", false)];
    var cards := [BlogCard("Recycling 101", "tips"), BlogCard("Ocean Cleanup", "news")];
    assert FirstActive(tabs) == Some(0);
    OceanExampleTitles();
    var r := FilterBlog(Some("ocean"), tabs, cards);
    assert !r[0] && r[1];
  }

  /** An empty query under the "tips" tab shows only "Recycling 101". */
  lemma BlogExampleCategory()
    ensures FilterBlog(Some(""), [Tab("all", false), Tab("tips", true)],
                       [BlogCard("Recycling 101", "tips"), BlogCard("Ocean Cleanup", "news")])
            == [true, false]
  {
    var tabs := [Tab("all", false), Tab("tips", true)];
    var cards := [BlogCard("Recycling 101", "tips"), BlogCard("Ocean Cleanup", "news")];
    LowerExamples();
    assert QueryOf(Some("")) == "";
    assert ActiveCategory(tabs) == "tips";
    assert OccursAt("", "recycling 101", 0);
    var r := FilterBlog(Some(""), tabs, cards);
    assert r[0] && !r[1];
  }
}
