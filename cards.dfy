/**
 * The attraction filter: a click on a filter button with `data-filter`
 * value `filter` shows every card whose type matches and hides the rest.
 * A card's type is its `data-type` attribute, or `all` when that attribute
 * is missing or empty.
 */
module Cards {
  import opened Options

  /** The card's `data-type`, with `all` standing in when it is missing or empty. */
  function CardType(dataType: Option<string>): (t: string)
    ensures t != []
    ensures t == "all" <==> dataType == None || dataType == Some([]) || dataType == Some("all")
  {
    match dataType
    case Some(t) => if t == [] then "all" else t
    case None => "all"
  }

  /** A card stays visible when the filter is `all` or names the card's type. */
  predicate Visible(filter: Option<string>, dataType: Option<string>)
    ensures Visible(filter, dataType) ==> filter.Some? && filter.value != []
  {
    filter == Some("all") || filter == Some(CardType(dataType))
  }

  /** Sets each card's display: `shown[i]` is true for `display: block`
      and false for `display: none`. */
  method FilterCards(filter: Option<string>, cards: seq<Option<string>>) returns (shown: seq<bool>)
    ensures |shown| == |cards|
    ensures forall i :: 0 <= i < |cards| ==> shown[i] == Visible(filter, cards[i])
  {
    shown := [];
    var i := 0;
    while i < |cards|
      invariant 0 <= i <= |cards| && |shown| == i
      invariant forall j :: 0 <= j < i ==> shown[j] == Visible(filter, cards[j])
    {
      var cardType := CardType(cards[i]);
      shown := shown + [filter == Some("all") || filter == Some(cardType)];
      i := i + 1;
    }
  }

  /** The `all` filter shows every card; any other filter shows a subset of
      what `all` shows. */
  lemma AllShowsEverything(filter: Option<string>, dataType: Option<string>)
    ensures Visible(Some("all"), dataType)
    ensures Visible(filter, dataType) ==> Visible(Some("all"), dataType)
  {
  }

  /** A card without a type is shown only under the `all` filter, and a
      button without `data-filter` shows none of the cards. */
  lemma UntypedCardOnlyUnderAll(filter: Option<string>, dataType: Option<string>)
    ensures Visible(filter, None) <==> filter == Some("all")
    ensures !Visible(None, dataType)
  {
  }

  /** Under a non-empty filter other than `all`, a card is shown exactly when its
      `data-type` equals the filter. */
  lemma NamedFilterMatchesType(filter: string, dataType: Option<string>)
    requires filter != "all" && filter != []
    ensures Visible(Some(filter), dataType) <==> dataType == Some(filter)
  {
  }
}
