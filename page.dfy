/**
 * The page's filter state and the handlers that change it. The two facet
 * selections are fields updated in place; the cards and filter buttons are
 * the page's fixed collections, whose `hidden` and `active` flags the
 * handlers rewrite element by element.
 */
module Page {
  import opened Wrappers
  import opened Filters

  class FilterPage {
    var difficultyFilter: string
    var topicFilter: string
    const cards: array<Card>
    const buttons: array<Button>

    /** Every card is decided, and decided for the current filter state and `term`. */
    ghost predicate CardsInSync(term: string)
      reads this, cards
    {
      Consistent(cards[..], term, difficultyFilter, topicFilter)
    }

    /** The page as loaded: both facets on the wildcard. */
    constructor (cards: array<Card>, buttons: array<Button>)
      ensures difficultyFilter == All && topicFilter == All
      ensures this.cards == cards && this.buttons == buttons
    {
      difficultyFilter := All;
      topicFilter := All;
      this.cards := cards;
      this.buttons := buttons;
    }

    /**
     * One filter pass, with `searchBox` the value of the search box (None
     * when the page has none). Returns false when a card without a title or
     * description element stopped the pass with an error.
     */
    method ApplyFilters(searchBox: Option<string>) returns (completed: bool)
      modifies cards
      ensures completed == AllReadable(old(cards[..]))
      ensures cards[..] == Pass(old(cards[..]), SearchTerm(searchBox), difficultyFilter, topicFilter)
      ensures completed ==> CardsInSync(SearchTerm(searchBox))
    {
      var term := SearchTerm(searchBox);
      ghost var before := cards[..];
      var i := 0;
      while i < cards.Length
        invariant 0 <= i <= FirstUnreadable(before)
        invariant forall j :: 0 <= j < i ==> cards[j] == Decide(before[j], term, difficultyFilter, topicFilter)
        invariant forall j :: i <= j < cards.Length ==> cards[j] == before[j]
      {
        var card := cards[i];
        if !Readable(card) {
          PassByPosition(before, cards[..], term, difficultyFilter, topicFilter, i);
          return false;
        }
        cards[i] := Decide(card, term, difficultyFilter, topicFilter);
        i := i + 1;
      }
      PassByPosition(before, cards[..], term, difficultyFilter, topicFilter, i);
      PassHidesNonMatching(before, term, difficultyFilter, topicFilter);
      return true;
    }

    /** The search box's input handler: a pass under the current selections. */
    method FilterChallenges(searchBox: Option<string>) returns (completed: bool)
      modifies cards
      ensures completed == AllReadable(old(cards[..]))
      ensures cards[..] == Pass(old(cards[..]), SearchTerm(searchBox), difficultyFilter, topicFilter)
      ensures completed ==> CardsInSync(SearchTerm(searchBox))
    {
      completed := ApplyFilters(searchBox);
    }

    /** Marks as active exactly the buttons of facet `d` that declare `value`. */
    method UpdateFilterButtons(d: Dimension, value: string)
      modifies buttons
      ensures buttons[..] == Reconcile(old(buttons[..]), d, value)
      ensures Reflects(buttons[..], d, value)
    {
      ghost var before := buttons[..];
      for i := 0 to buttons.Length
        invariant forall j :: 0 <= j < i ==> buttons[j] == ReconcileButton(before[j], d, value)
        invariant forall j :: i <= j < buttons.Length ==> buttons[j] == before[j]
      {
        var b := buttons[i];
        if b.dimension == Some(d) {
          buttons[i] := b.(active := false);
          if b.value == value {
            buttons[i] := b.(active := true);
          }
        }
      }
      ReconcileEffect(before, d, value);
    }

    /** A click on a difficulty button: select `difficulty`, mark its button, run a pass. */
    method FilterByDifficulty(difficulty: string, searchBox: Option<string>) returns (completed: bool)
      modifies this, cards, buttons
      ensures difficultyFilter == difficulty && topicFilter == old(topicFilter)
      ensures buttons[..] == Reconcile(old(buttons[..]), Difficulty, difficulty)
      ensures Reflects(buttons[..], Difficulty, difficulty)
      ensures cards[..] == Pass(old(cards[..]), SearchTerm(searchBox), difficulty, topicFilter)
      ensures completed == AllReadable(old(cards[..]))
      ensures completed ==> CardsInSync(SearchTerm(searchBox))
    {
      difficultyFilter := difficulty;
      UpdateFilterButtons(Difficulty, difficulty);
      completed := ApplyFilters(searchBox);
    }

    /** A click on a topic button: select `topic`, mark its button, run a pass. */
    method FilterByTopic(topic: string, searchBox: Option<string>) returns (completed: bool)
      modifies this, cards, buttons
      ensures topicFilter == topic && difficultyFilter == old(difficultyFilter)
      ensures buttons[..] == Reconcile(old(buttons[..]), Topic, topic)
      ensures Reflects(buttons[..], Topic, topic)
      ensures cards[..] == Pass(old(cards[..]), SearchTerm(searchBox), difficultyFilter, topic)
      ensures completed == AllReadable(old(cards[..]))
      ensures completed ==> CardsInSync(SearchTerm(searchBox))
    {
      topicFilter := topic;
      UpdateFilterButtons(Topic, topic);
      completed := ApplyFilters(searchBox);
    }
  }

  /**
   * The worked example driven through the handlers: select "advanced", type
   * "token"; then select every difficulty, clear the box, select the
   * "algorithms" topic.
   */
  method WorkedExampleOnPage()
  {
    var cards := new Card[2];
    cards[0], cards[1] := RateLimiter, BinarySearch;
    ghost var loaded := cards[..];
    var buttons := new Button[0];
    var page := new FilterPage(cards, buttons);
    WorkedExample();

    var ok := page.FilterByDifficulty("advanced", Some(""));
    ok := page.FilterChallenges(Some("token"));
    PassOverwrites(loaded, SearchTerm(Some("")), "advanced", All, SearchTerm(Some("token")), "advanced", All);
    assert !cards[0].hidden && cards[1].hidden;

    ok := page.FilterByDifficulty(All, Some("token"));
    ok := page.FilterChallenges(Some(""));
    ok := page.FilterByTopic("algorithms", Some(""));
    PassOverwrites(loaded, SearchTerm(Some("token")), "advanced", All, SearchTerm(Some("token")), All, All);
    PassOverwrites(loaded, SearchTerm(Some("token")), All, All, SearchTerm(Some("")), All, All);
    PassOverwrites(loaded, SearchTerm(Some("")), All, All, SearchTerm(Some("")), All, "algorithms");
    assert cards[0].hidden && !cards[1].hidden;
  }
}
