/** The result loop (`process_search_results`): locate the cards once, then
    for each card in order build its record, drop it if the filter says so,
    and otherwise append it to the CSV file, stopping as soon as the requested
    number of rows has been written. */
module Pipeline {
  import opened CardRecord
  import opened Extract
  import opened Filter
  import opened Locator

  /** The records of the cards the filter keeps, in card order. */
  function Kept(cards: seq<Card>, args: Args): seq<Record>
  {
    if cards == [] then []
    else
      var data := ExtractCardData(cards[|cards| - 1]);
      Kept(cards[..|cards| - 1], args) + (if ShouldFilter(data, args) then [] else [data])
  }

  /** The number of rows a `max_results` argument allows; a negative one allows none. */
  function Cap(maxResults: int): nat {
    if maxResults < 0 then 0 else maxResults
  }

  /** The first `n` elements of `rows`, or all of them when there are fewer. */
  function Take(rows: seq<Record>, n: nat): (r: seq<Record>)
    ensures |r| == (if n < |rows| then n else |rows|) && r == rows[..|r|]
  {
    if n < |rows| then rows[..n] else rows
  }

  /** Keeping distributes over concatenation: the kept records of a card list
      are those of its first part followed by those of the rest. */
  lemma {:induction false} KeptAppend(a: seq<Card>, b: seq<Card>, args: Args)
    ensures Kept(a + b, args) == Kept(a, args) + Kept(b, args)
    decreases |b|
  {
    if b == [] {
      assert a + b == a;
    } else {
      var init := b[..|b| - 1];
      assert (a + b)[..|a + b| - 1] == a + init;
      assert (a + b)[|a + b| - 1] == b[|b| - 1];
      KeptAppend(a, init, args);
    }
  }

  /** A single card contributes its record exactly when the filter keeps it. */
  lemma KeptSingle(card: Card, args: Args)
    ensures Kept([card], args) ==
      if ShouldFilter(ExtractCardData(card), args) then [] else [ExtractCardData(card)]
  {
    assert [card][..0] == [];
  }

  /** Extending the card list by one card extends the kept records by that
      card's record exactly when the filter keeps it. */
  lemma KeptStep(cards: seq<Card>, i: nat, args: Args)
    requires i < |cards|
    ensures Kept(cards[..i + 1], args) == Kept(cards[..i], args) +
      (if ShouldFilter(ExtractCardData(cards[i]), args) then [] else [ExtractCardData(cards[i])])
  {
    assert cards[..i + 1][..i] == cards[..i];
  }

  /** Writing one more row appends that row's line to the file. */
  lemma CsvFileSnoc(rows: seq<Record>, data: Record)
    ensures CsvFile(rows + [data]) == CsvFile(rows) + [Row(data)]
  {
    assert (rows + [data])[..|rows|] == rows;
  }

  /** Once the loop stops, after card `i`, what it wrote is the capped list of
      all kept records: either every card was seen, or the cap was reached. */
  lemma StopIsTake(cards: seq<Card>, i: nat, args: Args, cap: nat)
    requires i <= |cards| && |Kept(cards[..i], args)| <= cap
    requires i == |cards| || |Kept(cards[..i], args)| == cap
    ensures Take(Kept(cards, args), cap) == Kept(cards[..i], args)
  {
    assert cards[..i] + cards[i..] == cards;
    KeptAppend(cards[..i], cards[i..], args);
    if i == |cards| {
      assert cards[i..] == [];
    }
  }

  /** Every kept record is one the filter accepts and is built from one of the
      cards; there are never more kept records than cards. */
  lemma {:induction false} KeptSound(cards: seq<Card>, args: Args)
    ensures |Kept(cards, args)| <= |cards|
    ensures forall r :: r in Kept(cards, args) ==>
      !ShouldFilter(r, args) && exists c :: c in cards && r == ExtractCardData(c)
    decreases |cards|
  {
    if cards != [] {
      var init := cards[..|cards| - 1];
      KeptSound(init, args);
      forall r | r in Kept(cards, args)
        ensures !ShouldFilter(r, args) && exists c :: c in cards && r == ExtractCardData(c)
      {
        if r in Kept(init, args) {
          var c :| c in init && r == ExtractCardData(c);
          assert c in cards;
        } else {
          assert r == ExtractCardData(cards[|cards| - 1]);
        }
      }
    }
  }

  /** `process_search_results`. The CSV file is opened, and its header
      written, only when cards were found; it then receives exactly the first
      `max_results` records the filter keeps, in card order, one row each in
      the header's column order. The count returned is the number of rows. */
  method ProcessSearchResults(articles: Strategy, fallback: Strategy, args: Args)
    returns (written: int, csv: Option<seq<seq<string>>>)
    ensures var cards := FindPractitionerCards(articles, fallback);
      && (cards == [] ==> written == 0 && csv == None)
      && (cards != [] ==> csv == Some(CsvFile(Take(Kept(cards, args), Cap(args.maxResults)))))
    ensures 0 <= written <= Cap(args.maxResults)
    ensures csv.Some? ==> written == |csv.value| - 1
  {
    var cards := FindPractitionerCards(articles, fallback);
    if cards == [] {
      return 0, None;
    }
    ghost var rows: seq<Record> := [];
    var lines := [CSV_HEADERS];
    written := 0;
    var i := 0;
    while i < |cards|
      invariant 0 <= i <= |cards|
      invariant rows == Kept(cards[..i], args)
      invariant lines == CsvFile(rows)
      invariant written == |rows| <= Cap(args.maxResults)
    {
      if written >= args.maxResults {
        break;
      }
      var data := ExtractCardData(cards[i]);
      var filtered := ShouldFilterCard(data, args);
      KeptStep(cards, i, args);
      if !filtered {
        CsvFileSnoc(rows, data);
        lines := lines + [Row(data)];
        rows := rows + [data];
        written := written + 1;
      }
      i := i + 1;
    }
    StopIsTake(cards, i, args, Cap(args.maxResults));
    csv := Some(lines);
  }

  /** The kept records of three cards are those of each card in turn. */
  lemma KeptThree(first: Card, middle: Card, last: Card, args: Args)
    ensures Kept([first, middle, last], args) ==
      Kept([first], args) + Kept([middle], args) + Kept([last], args)
  {
    assert [first, middle, last] == [first, middle] + [last];
    assert [first, middle] == [first] + [middle];
    KeptAppend([first, middle], [last], args);
    KeptAppend([first], [middle], args);
  }

  /** Three cards, at most two rows, and a middle card on which nothing was
      found: the rows are the first and the third card's records, in that order. */
  lemma DeadMiddleCardIsSkipped(first: Card, middle: Card, last: Card, args: Args)
    requires !ShouldFilter(ExtractCardData(first), args) && !ShouldFilter(ExtractCardData(last), args)
    requires FoundNothing(middle)
    ensures Take(Kept([first, middle, last], args), Cap(2)) == [ExtractCardData(first), ExtractCardData(last)]
  {
    FoundNothingIsFiltered(middle, args);
    KeptThree(first, middle, last, args);
    KeptSingle(first, args);
    KeptSingle(middle, args);
    KeptSingle(last, args);
    var a, c := ExtractCardData(first), ExtractCardData(last);
    assert Kept([first, middle, last], args) == [a] + [] + [c];
  }
}
