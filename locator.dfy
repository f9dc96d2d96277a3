/** Choosing the result cards of the page (`find_practitioner_cards`). The two
    card selectors are waited for in a fixed order; what each wait produced is
    given as a `Strategy` value. */
module Locator {
  import opened Extract

  /** The outcome of one card selector: the cards it matched once the wait
      succeeded (possibly none), or a timeout of the wait. */
  datatype Strategy = Matched(cards: seq<Card>) | TimedOut

  /** The cards of the `<article>` selector when it matched at least one card;
      otherwise those of the `div.dl-card-content` fallback, or none when the
      fallback timed out. The two lists are never merged. */
  function FindPractitionerCards(articles: Strategy, fallback: Strategy): (cards: seq<Card>)
    ensures articles.Matched? && articles.cards != [] ==> cards == articles.cards
    ensures !(articles.Matched? && articles.cards != []) ==>
      cards == if fallback.Matched? then fallback.cards else []
  {
    var first := if articles.Matched? then articles.cards else [];
    if first != [] then first
    else if fallback.Matched? then fallback.cards
    else []
  }

  /** When the `<article>` selector finds cards, the fallback's outcome has no
      influence at all: the fallback selector is as good as never tried. */
  lemma ArticlesSuppressFallback(articles: Strategy, fallback: Strategy, other: Strategy)
    requires articles.Matched? && articles.cards != []
    ensures FindPractitionerCards(articles, fallback) == FindPractitionerCards(articles, other)
  {
  }

  /** The result is always one selector's list as a whole, or empty. */
  lemma NeverMerged(articles: Strategy, fallback: Strategy)
    ensures var cards := FindPractitionerCards(articles, fallback);
      || cards == []
      || (articles.Matched? && cards == articles.cards)
      || (fallback.Matched? && cards == fallback.cards)
  {
  }
}
