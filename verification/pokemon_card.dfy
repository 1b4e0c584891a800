/**
 The decisions a Pokémon card makes: which favorites call its star button
 triggers, how the button looks, and how the id label is printed.
 */
module PokemonCard {

  import opened Text
  import FavoritesContext

  /** The one favorites call a click makes. */
  datatype FavoriteCall = CallAdd(name: string) | CallRemove(name: string)

  /** `handleFavoriteClick`: remove a favorite, add anything else. */
  function FavoriteClick(favorites: set<string>, name: string): (call: FavoriteCall)
    ensures call.name == name
    ensures call.CallRemove? <==> FavoritesContext.IsFavorite(favorites, name)
  {
    if FavoritesContext.IsFavorite(favorites, name) then CallRemove(name) else CallAdd(name)
  }

  /** The optimistic state right after the call a click makes. */
  function OptimisticAfterClick(favorites: set<string>, name: string): set<string> {
    match FavoriteClick(favorites, name)
    case CallAdd(n) => FavoritesContext.OptimisticAdd(favorites, n)
    case CallRemove(n) => FavoritesContext.OptimisticRemove(favorites, n)
  }

  /** A click flips the card's own name in the optimistic state and no other name. */
  lemma ClickToggles(favorites: set<string>, name: string)
    ensures name in OptimisticAfterClick(favorites, name) <==> name !in favorites
    ensures forall n :: n != name ==> (n in OptimisticAfterClick(favorites, name) <==> n in favorites)
  {
  }

  /** The star on the button: filled for a favorite. */
  function Star(isFavorite: bool): string {
    if isFavorite then "★" else "☆"
  }

  /** The button's class list. */
  function ButtonClass(isFavorite: bool): string {
    "favorite-btn " + if isFavorite then "active" else ""
  }

  /** The button is filled and carries `active` exactly for a favorite. */
  lemma ButtonShowsFavorite(favorites: set<string>, name: string)
    ensures var fav := FavoritesContext.IsFavorite(favorites, name);
            (Star(fav) == "★" <==> name in favorites) &&
            (Contains(ButtonClass(fav), "active") <==> name in favorites)
  {
    ActiveWhenFavorite();
    NotActiveOtherwise();
  }

  lemma ActiveWhenFavorite()
    ensures Contains(ButtonClass(true), "active")
  {
    var c := ButtonClass(true);
    assert c[13..13 + 6] == "active";
    ContainsAt(c, "active", 13);
  }

  lemma NotActiveOtherwise()
    ensures !Contains(ButtonClass(false), "active")
  {
    var c := ButtonClass(false);
    assert 'c' !in c;
    CharMissing(c, "active", 1);
  }

  /** The id label: `#` and the decimal id padded with zeros to three characters. */
  function IdLabel(id: int): (tag: string)
    ensures |tag| >= 4 && tag[0] == '#'
    ensures |tag| == 1 + (if |IntToString(id)| >= 3 then |IntToString(id)| else 3)
    ensures |IntToString(id)| < |tag|
    ensures tag[|tag| - |IntToString(id)|..] == IntToString(id)
    ensures forall i :: 1 <= i < |tag| - |IntToString(id)| ==> tag[i] == '0'
  {
    "#" + PadStart(IntToString(id), 3, '0')
  }

  /**
   The digits of a label are never fewer than three and never cut: a short id
   gains leading zeros, a long one is printed whole, and dropping the leading
   zeros of a positive id gives its decimal form back.
   */
  lemma IdLabelDigits(id: nat)
    ensures var tag := IdLabel(id);
            var digits := tag[1..];
            && tag[0] == '#'
            && |digits| == (if |NatToString(id)| >= 3 then |NatToString(id)| else 3)
            && (|NatToString(id)| >= 3 ==> digits == NatToString(id))
            && digits[|digits| - |NatToString(id)|..] == NatToString(id)
            && ParseDecimal(digits) == id
            && (id > 0 ==> StripLeadingZeros(digits) == NatToString(id))
  {
    assert IdLabel(id)[1..] == PadStart(NatToString(id), 3, '0');
    PaddedDecimal(id);
  }

  lemma PaddedDecimal(id: nat)
    ensures var s := NatToString(id);
            var digits := PadStart(s, 3, '0');
            && (forall i :: 0 <= i < |digits| ==> IsDigit(digits[i]))
            && ParseDecimal(digits) == id
            && (id > 0 ==> StripLeadingZeros(digits) == s)
  {
    var s := NatToString(id);
    var digits := PadStart(s, 3, '0');
    var zeros := digits[..|digits| - |s|];
    assert digits == zeros + s;
    assert forall i :: 0 <= i < |zeros| ==> zeros[i] == '0';
    forall i | 0 <= i < |digits|
      ensures IsDigit(digits[i])
    {
      if i >= |zeros| {
        assert digits[i] == s[i - |zeros|];
      }
    }
    if id > 0 {
      StripZeroPrefix(zeros, s);
    }
    ParsePrinted(id);
    ParseZeroPrefix(zeros, s);
  }
}
