/**
 * The challenge-card filter: the cards and filter buttons of the page, the
 * per-card match decision, and, as functions on sequences, what one filter
 * pass and one button reconciliation do to the page.
 */
module Filters {
  import opened Wrappers
  import opened Text

  /** The wildcard facet value: the dimension does not filter at all. */
  const All: string := "all"

  /** The two facet dimensions a filter button can belong to. */
  datatype Dimension = Difficulty | Topic

  /**
   * A challenge card. `title` and `description` are the text of the card's
   * title and description elements, None when the card lacks that element;
   * `difficulty` and `topic` are its data attributes; `hidden` is whether it
   * carries the `hidden` class.
   */
  datatype Card = Card(
    title: Option<string>,
    description: Option<string>,
    difficulty: string,
    topic: string,
    hidden: bool)

  /**
   * A filter button with its declared facet (None for a button that has no
   * click handler, or whose handler calls neither facet's filter function),
   * the facet value it selects, and whether it carries the `active` class.
   */
  datatype Button = Button(dimension: Option<Dimension>, value: string, active: bool)

  /** The search term of a pass: the search box's value lower-cased, or "" without a search box. */
  function SearchTerm(searchBox: Option<string>): (term: string)
    ensures Lower(term) == term
    ensures searchBox.None? ==> term == ""
    ensures searchBox.Some? ==> |term| == |searchBox.value|
    ensures searchBox.Some? ==> forall i :: 0 <= i < |term| ==> term[i] == LowerChar(searchBox.value[i])
  {
    match searchBox
    case None => ""
    case Some(text) => Lower(text)
  }

  /** A card whose title and description can be read without an error. */
  predicate Readable(c: Card)
  {
    c.title.Some? && c.description.Some?
  }

  predicate AllReadable(cs: seq<Card>)
  {
    forall i :: 0 <= i < |cs| ==> Readable(cs[i])
  }

  /** The free-text criterion; `term` is already lower-cased. */
  predicate MatchesSearch(c: Card, term: string)
    requires Readable(c)
  {
    term == "" || Contains(Lower(c.title.value), term) || Contains(Lower(c.description.value), term)
  }

  /** A facet criterion: the wildcard, or exact equality without case folding. */
  predicate MatchesFacet(value: string, filter: string)
  {
    filter == All || value == filter
  }

  /** A card stays visible when it meets all three criteria. */
  predicate Matches(c: Card, term: string, difficulty: string, topic: string)
    requires Readable(c)
  {
    MatchesSearch(c, term) && MatchesFacet(c.difficulty, difficulty) && MatchesFacet(c.topic, topic)
  }

  /** The decision for one card: only its `hidden` flag changes. */
  function Decide(c: Card, term: string, difficulty: string, topic: string): (r: Card)
    requires Readable(c)
    ensures r.hidden <==> !Matches(c, term, difficulty, topic)
    ensures r.(hidden := c.hidden) == c
  {
    c.(hidden := !Matches(c, term, difficulty, topic))
  }

  /** The position of the first card whose title or description is missing, or |cs| if there is none. */
  function FirstUnreadable(cs: seq<Card>): (k: nat)
    ensures k <= |cs|
    ensures forall i :: 0 <= i < k ==> Readable(cs[i])
    ensures k < |cs| ==> !Readable(cs[k])
  {
    if cs == [] || !Readable(cs[0]) then 0 else 1 + FirstUnreadable(cs[1..])
  }

  /**
   * One filter pass over the cards in page order. Reading a missing title
   * or description element throws, which ends the pass: the cards before
   * it have been decided, it and the cards after it are as they were.
   */
  function Pass(cs: seq<Card>, term: string, difficulty: string, topic: string): (r: seq<Card>)
    ensures |r| == |cs|
    ensures forall i :: 0 <= i < FirstUnreadable(cs) ==> r[i] == Decide(cs[i], term, difficulty, topic)
    ensures forall i :: FirstUnreadable(cs) <= i < |cs| ==> r[i] == cs[i]
  {
    if cs == [] || !Readable(cs[0]) then cs
    else [Decide(cs[0], term, difficulty, topic)] + Pass(cs[1..], term, difficulty, topic)
  }

  /** The cards a pass produces, given position by position: decided up to `k`, untouched from `k` on. */
  lemma PassByPosition(cs: seq<Card>, r: seq<Card>, term: string, difficulty: string, topic: string, k: nat)
    requires k == FirstUnreadable(cs) && |r| == |cs|
    requires forall j :: 0 <= j < k ==> r[j] == Decide(cs[j], term, difficulty, topic)
    requires forall j :: k <= j < |cs| ==> r[j] == cs[j]
    ensures r == Pass(cs, term, difficulty, topic)
  {
  }

  /** Every card's `hidden` flag agrees with the match decision. */
  ghost predicate Consistent(cs: seq<Card>, term: string, difficulty: string, topic: string)
  {
    forall i :: 0 <= i < |cs| ==> Readable(cs[i]) && (cs[i].hidden <==> !Matches(cs[i], term, difficulty, topic))
  }

  /** A card keeps everything but its `hidden` flag. */
  predicate SameButHidden(a: Card, b: Card)
  {
    a.(hidden := b.hidden) == b
  }

  /**
   * When every card is readable, a pass hides a card exactly when it fails
   * one of the three criteria, decides each card from that card alone, and
   * changes nothing but `hidden` flags.
   */
  lemma PassHidesNonMatching(cs: seq<Card>, term: string, difficulty: string, topic: string)
    requires AllReadable(cs)
    ensures FirstUnreadable(cs) == |cs|
    ensures Consistent(Pass(cs, term, difficulty, topic), term, difficulty, topic)
    ensures forall i :: 0 <= i < |cs| ==>
      (Pass(cs, term, difficulty, topic)[i].hidden <==> !Matches(cs[i], term, difficulty, topic))
    ensures forall i :: 0 <= i < |cs| ==> SameButHidden(cs[i], Pass(cs, term, difficulty, topic)[i])
  {
    var r := Pass(cs, term, difficulty, topic);
    forall i | 0 <= i < |cs|
      ensures Readable(r[i]) && (r[i].hidden <==> !Matches(r[i], term, difficulty, topic))
    {
      assert r[i] == Decide(cs[i], term, difficulty, topic);
    }
  }

  /** The pass completes (throws no error) exactly when every card is readable. */
  lemma PassCompletes(cs: seq<Card>)
    ensures FirstUnreadable(cs) == |cs| <==> AllReadable(cs)
  {
  }

  /**
   * A pass is idempotent: running it again with the same filter state
   * leaves the cards as the first run left them.
   */
  lemma {:induction false} PassIdempotent(cs: seq<Card>, term: string, difficulty: string, topic: string)
    ensures Pass(Pass(cs, term, difficulty, topic), term, difficulty, topic) == Pass(cs, term, difficulty, topic)
  {
    if cs != [] && Readable(cs[0]) {
      PassIdempotent(cs[1..], term, difficulty, topic);
      var r := Pass(cs, term, difficulty, topic);
      assert r[1..] == Pass(cs[1..], term, difficulty, topic);
    }
  }

  /**
   * Only the latest filter state matters: a pass over cards that an earlier
   * pass has already decided gives what a single pass gives.
   */
  lemma {:induction false} PassOverwrites(cs: seq<Card>, term0: string, difficulty0: string, topic0: string,
                                          term: string, difficulty: string, topic: string)
    ensures Pass(Pass(cs, term0, difficulty0, topic0), term, difficulty, topic) == Pass(cs, term, difficulty, topic)
  {
    if cs != [] && Readable(cs[0]) {
      PassOverwrites(cs[1..], term0, difficulty0, topic0, term, difficulty, topic);
      var r := Pass(cs, term0, difficulty0, topic0);
      assert r[1..] == Pass(cs[1..], term0, difficulty0, topic0);
    }
  }

  /** The wildcard makes a facet criterion hold whatever the card's value. */
  lemma WildcardMatchesEveryValue(value: string)
    ensures MatchesFacet(value, All)
  {
  }

  /**
   * With both facets on the wildcard and an empty search term (also the term
   * when the page has no search box), a pass shows every card it reaches.
   */
  lemma {:induction false} NoFilterShowsAll(cs: seq<Card>)
    ensures forall i :: 0 <= i < FirstUnreadable(cs) ==> !Pass(cs, SearchTerm(None), All, All)[i].hidden
  {
  }

  /**
   * A facet value that no card carries hides every card the pass reaches,
   * and raises no error of its own.
   */
  lemma UnknownDifficultyHidesAll(cs: seq<Card>, term: string, difficulty: string, topic: string)
    requires difficulty != All
    requires forall i :: 0 <= i < |cs| ==> cs[i].difficulty != difficulty
    ensures forall i :: 0 <= i < FirstUnreadable(cs) ==> Pass(cs, term, difficulty, topic)[i].hidden
  {
  }

  lemma UnknownTopicHidesAll(cs: seq<Card>, term: string, difficulty: string, topic: string)
    requires topic != All
    requires forall i :: 0 <= i < |cs| ==> cs[i].topic != topic
    ensures forall i :: 0 <= i < FirstUnreadable(cs) ==> Pass(cs, term, difficulty, topic)[i].hidden
  {
  }

  /** Facet values are compared exactly: a difference in case is a mismatch. */
  lemma FacetIsCaseSensitive()
    ensures !MatchesFacet("Advanced", "advanced")
  {
  }

  /**
   * The search is case-insensitive: a card meets the search criterion for
   * the text typed in the box exactly when the text is empty or its title
   * or description has a stretch equal to it up to ASCII case.
   */
  lemma SearchIgnoresCase(c: Card, typed: string)
    requires Readable(c)
    ensures MatchesSearch(c, SearchTerm(Some(typed))) <==>
      typed == "" ||
      (exists i :: OccursAtIgnoringCase(c.title.value, typed, i)) ||
      (exists i :: OccursAtIgnoringCase(c.description.value, typed, i))
  {
    ContainsLowerIff(c.title.value, typed);
    ContainsLowerIff(c.description.value, typed);
  }

  /** The query "Array" finds a card titled "array rotation". */
  lemma ArrayFindsArrayRotation(description: string, difficulty: string, topic: string)
    ensures MatchesSearch(Card(Some("array rotation"), Some(description), difficulty, topic, true), SearchTerm(Some("Array")))
  {
    var c := Card(Some("array rotation"), Some(description), difficulty, topic, true);
    var typed := Lower("Array");
    assert typed[0] == 'a' && typed[1] == 'r' && typed[2] == 'r' && typed[3] == 'a' && typed[4] == 'y';
    LowerOfLowercase("array");
    assert "array rotation"[0..5] == "array" == typed;
    assert OccursAtIgnoringCase(c.title.value, "Array", 0);
    SearchIgnoresCase(c, "Array");
  }

  /** The two cards of the worked example. */
  const RateLimiter: Card := Card(Some("Rate Limiter"), Some("Token bucket"), "advanced", "systems", false)
  const BinarySearch: Card := Card(Some("Binary Search"), Some("Find X in sorted list"), "beginner", "algorithms", false)

  lemma TokenBucketHasToken()
    ensures SearchTerm(Some("token")) == "token"
    ensures Contains(Lower("Token bucket"), "token")
  {
    LowerOfLowercase("token");
    var s := Lower("Token bucket");
    assert s[0] == 't' && s[1] == 'o' && s[2] == 'k' && s[3] == 'e' && s[4] == 'n';
    assert s[..5] == "token";
    assert OccursAt(s, "token", 0);
  }

  /**
   * With "advanced" selected and "token" typed, only the rate limiter is
   * visible; with every difficulty, an empty search box and the
   * "algorithms" topic, only binary search is.
   */
  lemma WorkedExample()
    ensures var r := Pass([RateLimiter, BinarySearch], SearchTerm(Some("token")), "advanced", All);
      !r[0].hidden && r[1].hidden
    ensures var r := Pass([RateLimiter, BinarySearch], SearchTerm(Some("")), All, "algorithms");
      r[0].hidden && !r[1].hidden
  {
    TokenBucketHasToken();
    assert FirstUnreadable([RateLimiter, BinarySearch]) == 2;
  }

  /** A filter button after reconciliation for facet `d` with the newly selected value `v`. */
  function ReconcileButton(b: Button, d: Dimension, v: string): (r: Button)
    ensures r.dimension == b.dimension && r.value == b.value
    ensures b.dimension != Some(d) ==> r == b
    ensures b.dimension == Some(d) ==> (r.active <==> b.value == v)
  {
    if b.dimension == Some(d) then b.(active := b.value == v) else b
  }

  /** Reconciliation of every filter button of the page. */
  function Reconcile(bs: seq<Button>, d: Dimension, v: string): (r: seq<Button>)
    ensures |r| == |bs|
    ensures forall i :: 0 <= i < |bs| ==> r[i] == ReconcileButton(bs[i], d, v)
  {
    seq(|bs|, i requires 0 <= i < |bs| => ReconcileButton(bs[i], d, v))
  }

  /** The buttons of facet `d` mark exactly the selected value `v` as active. */
  ghost predicate Reflects(bs: seq<Button>, d: Dimension, v: string)
  {
    forall i :: 0 <= i < |bs| && bs[i].dimension == Some(d) ==> (bs[i].active <==> bs[i].value == v)
  }

  /**
   * Reconciliation marks, among the buttons of the targeted facet, exactly
   * those declaring the new value, and leaves every other button as it was.
   */
  lemma ReconcileEffect(bs: seq<Button>, d: Dimension, v: string)
    ensures Reflects(Reconcile(bs, d, v), d, v)
    ensures forall i :: 0 <= i < |bs| && bs[i].dimension != Some(d) ==> Reconcile(bs, d, v)[i] == bs[i]
  {
  }

  /** When no button of the facet declares the new value, none of them is active afterwards. */
  lemma ReconcileNoMatch(bs: seq<Button>, d: Dimension, v: string)
    requires forall i :: 0 <= i < |bs| && bs[i].dimension == Some(d) ==> bs[i].value != v
    ensures forall i :: 0 <= i < |bs| && bs[i].dimension == Some(d) ==> !Reconcile(bs, d, v)[i].active
  {
  }

  /**
   * When each value of facet `d` is declared by one button only and some
   * button declares `v`, exactly that button of the facet is active.
   */
  lemma ReconcileExclusive(bs: seq<Button>, d: Dimension, v: string, k: int)
    requires 0 <= k < |bs| && bs[k].dimension == Some(d) && bs[k].value == v
    requires forall i, j :: 0 <= i < j < |bs| && bs[i].dimension == Some(d) && bs[j].dimension == Some(d) ==> bs[i].value != bs[j].value
    ensures Reconcile(bs, d, v)[k].active
    ensures forall i :: 0 <= i < |bs| && i != k && bs[i].dimension == Some(d) ==> !Reconcile(bs, d, v)[i].active
  {
    forall i | 0 <= i < |bs| && i != k && bs[i].dimension == Some(d)
      ensures !Reconcile(bs, d, v)[i].active
    {
      if i < k { assert bs[i].value != bs[k].value; } else { assert bs[k].value != bs[i].value; }
    }
  }

  /** Reconciling again with the same value changes nothing. */
  lemma ReconcileIdempotent(bs: seq<Button>, d: Dimension, v: string)
    ensures Reconcile(Reconcile(bs, d, v), d, v) == Reconcile(bs, d, v)
  {
  }
}
