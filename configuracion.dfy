/** The deck configuration page: a list of decks, each an ordered list of
    flashcards, edited by four handlers that rebuild the whole list and
    change only the deck whose id equals the currently selected one. */
module Configuracion {

  /** `null` in the stored documents. */
  datatype Option<T> = None | Some(value: T)

  /** A flashcard; timestamps are milliseconds since the epoch. */
  datatype Flashcard = Flashcard(
    id: string,
    question: string,
    answer: string,
    lastAnswered: Option<int>,
    blockedUntil: Option<int>)

  datatype Deck = Deck(id: string, name: string, cards: seq<Flashcard>)

  /** The three ways a handler rewrites the card list of the current deck. */
  datatype CardEdit =
    | Append(card: Flashcard)     // addFlashcard
    | Replace(card: Flashcard)    // updateFlashcard
    | Remove(cardId: string)      // deleteFlashcard

  /** Number of cards carrying the given id (ids need not be unique). */
  function CountId(cards: seq<Flashcard>, id: string): (n: nat)
    ensures n <= |cards|
    ensures n == 0 <==> forall i :: 0 <= i < |cards| ==> cards[i].id != id
  {
    if cards == [] then 0
    else (if cards[0].id == id then 1 else 0) + CountId(cards[1..], id)
  }

  /** `cards.map(card => card.id === edited.id ? edited : card)` */
  function ReplaceCards(cards: seq<Flashcard>, edited: Flashcard): (r: seq<Flashcard>)
    ensures |r| == |cards|
    ensures forall i :: 0 <= i < |cards| && cards[i].id == edited.id ==> r[i] == edited
    ensures forall i :: 0 <= i < |cards| && cards[i].id != edited.id ==> r[i] == cards[i]
  {
    if cards == [] then []
    else [if cards[0].id == edited.id then edited else cards[0]] + ReplaceCards(cards[1..], edited)
  }

  /** `cards.filter(card => card.id !== id)` */
  function RemoveCards(cards: seq<Flashcard>, id: string): (r: seq<Flashcard>)
    ensures |r| == |cards| - CountId(cards, id)
    ensures forall i :: 0 <= i < |r| ==> r[i].id != id
  {
    if cards == [] then []
    else if cards[0].id == id then RemoveCards(cards[1..], id)
    else [cards[0]] + RemoveCards(cards[1..], id)
  }

  /** The new card list of a current deck: `[...deck.cards, newCard]`, the
      replacing map, or the filter. */
  function ApplyEdit(cards: seq<Flashcard>, e: CardEdit): (r: seq<Flashcard>)
    ensures e.Append? ==> |r| == |cards| + 1 && r[..|cards|] == cards && r[|cards|] == e.card
    ensures e.Replace? ==> |r| == |cards|
    ensures e.Remove? ==> |r| == |cards| - CountId(cards, e.cardId)
  {
    match e
    case Append(card) => cards + [card]
    case Replace(card) => ReplaceCards(cards, card)
    case Remove(id) => RemoveCards(cards, id)
  }

  /** `decks.map(deck => deck.id === current ? { ...deck, cards: <edited> } : deck)`:
      every deck keeps its id, name and position; only decks whose id is
      `current` get a new card list, and every such deck gets it. */
  function MapCurrent(decks: seq<Deck>, current: string, e: CardEdit): (r: seq<Deck>)
    ensures |r| == |decks|
    ensures forall i :: 0 <= i < |decks| ==> r[i].id == decks[i].id && r[i].name == decks[i].name
    ensures forall i :: 0 <= i < |decks| && decks[i].id != current ==> r[i] == decks[i]
    ensures forall i :: 0 <= i < |decks| && decks[i].id == current ==>
              r[i].cards == ApplyEdit(decks[i].cards, e)
  {
    if decks == [] then []
    else
      var d := decks[0];
      var rest := MapCurrent(decks[1..], current, e);
      var r := [if d.id == current then d.(cards := ApplyEdit(d.cards, e)) else d] + rest;
      assert forall i :: 1 <= i < |decks| ==> r[i] == rest[i - 1] && decks[i] == decks[1..][i - 1];
      r
  }

  /** Position of the first deck with the given id, as `decks.find` locates it. */
  function FindDeck(decks: seq<Deck>, id: string): (r: Option<nat>)
    ensures r.Some? ==> r.value < |decks| && decks[r.value].id == id
    ensures r.Some? ==> forall j :: 0 <= j < r.value ==> decks[j].id != id
    ensures r.None? <==> forall j :: 0 <= j < |decks| ==> decks[j].id != id
  {
    if decks == [] then None
    else if decks[0].id == id then Some(0)
    else match FindDeck(decks[1..], id)
      case None => None
      case Some(k) => Some(k + 1)
  }

  /** `decks.find(deck => deck.id === current)?.cards || []`: the cards of the
      first deck whose id is `current`, or no cards when no deck has it. */
  function CurrentDeckCards(decks: seq<Deck>, current: string): (r: seq<Flashcard>)
    ensures (forall i :: 0 <= i < |decks| ==> decks[i].id != current) ==> r == []
    ensures forall i :: (0 <= i < |decks| && decks[i].id == current
              && forall j :: 0 <= j < i ==> decks[j].id != current) ==> r == decks[i].cards
  {
    match FindDeck(decks, current)
    case None => []
    case Some(k) => decks[k].cards
  }

  /** What the status column shows for a card. */
  datatype Status = BlockedUntil(until: int) | Available

  /** `card.blockedUntil && card.blockedUntil > now`: a stamp of 0 is falsy in
      the page's language and therefore reads as "not blocked". */
  function CardStatus(card: Flashcard, now: int): (s: Status)
    ensures s.BlockedUntil? ==> card.blockedUntil == Some(s.until) && s.until > now
    ensures card.blockedUntil.None? ==> s == Available
  {
    match card.blockedUntil
    case None => Available
    case Some(t) => if t != 0 && t > now then BlockedUntil(t) else Available
  }

  /** A card is available when it was never blocked or its block has expired. */
  predicate IsAvailableAt(card: Flashcard, now: int)
  {
    card.blockedUntil.None? || card.blockedUntil.value <= now
  }

  /** For every clock reading the page can see (never negative), the status
      column agrees with the availability rule in both directions. */
  lemma StatusMatchesAvailability(card: Flashcard, now: int)
    requires now >= 0
    ensures CardStatus(card, now) == Available <==> IsAvailableAt(card, now)
    ensures CardStatus(card, now) != Available <==>
              card.blockedUntil.Some? && card.blockedUntil.value > now
  {
  }

  /** The zero stamp is where the truthiness test and the availability rule
      part ways, and only for clock readings below zero, which the page's
      clock never gives. */
  lemma ZeroStampReadsAvailable(card: Flashcard, now: int)
    requires card.blockedUntil == Some(0) && now < 0
    ensures CardStatus(card, now) == Available && !IsAvailableAt(card, now)
  {
  }

  /** Away from the zero stamp, the status column and the availability rule
      agree for every clock reading, negative ones included. */
  lemma OnlyZeroStampDiffers(card: Flashcard, now: int)
    requires card.blockedUntil != Some(0)
    ensures CardStatus(card, now) == Available <==> IsAvailableAt(card, now)
  {
  }

  /** The load effect: the stored list (if any) becomes the deck list, and the
      first stored deck becomes the current one when there is one. */
  function InitialSelection(stored: Option<seq<Deck>>): (r: (seq<Deck>, string))
    ensures stored.None? ==> r == ([], "")
    ensures stored.Some? ==> r.0 == stored.value
    ensures stored.Some? && stored.value != [] ==>
              r.1 == stored.value[0].id && CurrentDeckCards(r.0, r.1) == stored.value[0].cards
    ensures stored.Some? && stored.value == [] ==> r.1 == ""
  {
    match stored
    case None => ([], "")
    case Some(ds) => (ds, if ds != [] then ds[0].id else "")
  }

  /** Removing cards never leaves one with the removed id, so a second removal
      of the same id changes nothing. */
  lemma {:induction false} RemoveCardsNoMatch(cards: seq<Flashcard>, id: string)
    requires forall i :: 0 <= i < |cards| ==> cards[i].id != id
    ensures RemoveCards(cards, id) == cards
  {
    if cards != [] {
      RemoveCardsNoMatch(cards[1..], id);
      assert cards == [cards[0]] + cards[1..];
    }
  }

  /** A card survives the removal exactly when it was there and carries a
      different id. */
  lemma {:induction false} RemoveCardsMembers(cards: seq<Flashcard>, id: string, c: Flashcard)
    ensures c in RemoveCards(cards, id) <==> c in cards && c.id != id
  {
    if cards != [] {
      RemoveCardsMembers(cards[1..], id, c);
      assert cards == [cards[0]] + cards[1..];
    }
  }

  lemma {:induction false} RemoveCardsIdempotent(cards: seq<Flashcard>, id: string)
    ensures RemoveCards(RemoveCards(cards, id), id) == RemoveCards(cards, id)
  {
    RemoveCardsNoMatch(RemoveCards(cards, id), id);
  }

  /** The filter keeps the surviving cards in their original order: removing
      from a concatenation is the concatenation of the removals. */
  lemma {:induction false} RemoveCardsAppend(a: seq<Flashcard>, b: seq<Flashcard>, id: string)
    ensures RemoveCards(a + b, id) == RemoveCards(a, id) + RemoveCards(b, id)
  {
    if a == [] {
      assert a + b == b;
    } else {
      var ab := a + b;
      assert ab[0] == a[0];
      assert ab[1..] == a[1..] + b;
      RemoveCardsAppend(a[1..], b, id);
      if a[0].id == id {
        calc {
          RemoveCards(ab, id);
          RemoveCards(a[1..] + b, id);
          RemoveCards(a[1..], id) + RemoveCards(b, id);
          RemoveCards(a, id) + RemoveCards(b, id);
        }
      } else {
        calc {
          RemoveCards(ab, id);
          [a[0]] + RemoveCards(a[1..] + b, id);
          [a[0]] + (RemoveCards(a[1..], id) + RemoveCards(b, id));
          ([a[0]] + RemoveCards(a[1..], id)) + RemoveCards(b, id);
          RemoveCards(a, id) + RemoveCards(b, id);
        }
      }
    }
  }

  /** Deleting the same id twice from the deck list is deleting it once. */
  lemma DeleteFlashcardIdempotent(decks: seq<Deck>, current: string, id: string)
    ensures MapCurrent(MapCurrent(decks, current, Remove(id)), current, Remove(id))
              == MapCurrent(decks, current, Remove(id))
  {
    var r := MapCurrent(decks, current, Remove(id));
    var rr := MapCurrent(r, current, Remove(id));
    forall i | 0 <= i < |decks| ensures rr[i] == r[i] {
      if decks[i].id == current {
        RemoveCardsIdempotent(decks[i].cards, id);
      }
    }
    assert rr == r;
  }

  /** Replacing twice with the same edited card is replacing once. */
  lemma ReplaceCardsIdempotent(cards: seq<Flashcard>, edited: Flashcard)
    ensures ReplaceCards(ReplaceCards(cards, edited), edited) == ReplaceCards(cards, edited)
  {
    var r := ReplaceCards(cards, edited);
    var rr := ReplaceCards(r, edited);
    assert forall i :: 0 <= i < |r| ==> rr[i] == r[i];
  }

  /** Editing never changes which deck a lookup finds. */
  lemma {:induction false} FindDeckAfterEdit(decks: seq<Deck>, current: string, e: CardEdit, id: string)
    ensures FindDeck(MapCurrent(decks, current, e), id) == FindDeck(decks, id)
  {
    if decks != [] {
      FindDeckAfterEdit(decks[1..], current, e, id);
    }
  }

  /** The card table shown after an edit is the edited card list of the
      current deck, or still empty when no deck is current. */
  lemma CurrentCardsAfterEdit(decks: seq<Deck>, current: string, e: CardEdit)
    ensures CurrentDeckCards(MapCurrent(decks, current, e), current) ==
              if FindDeck(decks, current).Some?
              then ApplyEdit(CurrentDeckCards(decks, current), e)
              else []
  {
    FindDeckAfterEdit(decks, current, e, current);
  }

  /** Appending a deck does not change what a lookup finds among the old
      decks; the new deck is found only when no old deck shares its id. */
  lemma {:induction false} FindDeckAppend(decks: seq<Deck>, d: Deck, id: string)
    ensures FindDeck(decks + [d], id) ==
              if FindDeck(decks, id).Some? then FindDeck(decks, id)
              else if d.id == id then Some(|decks|)
              else None
  {
    if decks != [] {
      assert (decks + [d])[0] == decks[0];
      assert (decks + [d])[1..] == decks[1..] + [d];
      FindDeckAppend(decks[1..], d, id);
    }
  }

  /** After addDeck the table shows the new, empty deck when its id is fresh;
      when an older deck already has that id, the older deck is shown. */
  lemma AddDeckSelection(decks: seq<Deck>, freshId: string, name: string)
    ensures CurrentDeckCards(decks + [Deck(freshId, name, [])], freshId) ==
              CurrentDeckCards(decks, freshId)
  {
    FindDeckAppend(decks, Deck(freshId, name, []), freshId);
  }

  /** The page's state: the deck list, the selected deck id and the form fields
      the handlers read and reset. */
  class ConfigPage {
    var decks: seq<Deck>
    var currentDeck: string
    var newDeckName: string
    var newQuestion: string
    var newAnswer: string
    var editingCard: Option<Flashcard>

    /** Mounting: the initial state, then the load effect over what the store
        holds (None when the key was never written). */
    constructor (stored: Option<seq<Deck>>)
      ensures (decks, currentDeck) == InitialSelection(stored)
      ensures newDeckName == "" && newQuestion == "" && newAnswer == ""
      ensures editingCard == None
    {
      decks := [];
      currentDeck := "";
      newDeckName := "";
      newQuestion := "";
      newAnswer := "";
      editingCard := None;
      if stored.Some? {
        decks := stored.value;
        if |stored.value| > 0 {
          currentDeck := stored.value[0].id;
        }
      }
    }

    method SetNewDeckName(s: string)
      modifies this
      ensures newDeckName == s
      ensures decks == old(decks) && currentDeck == old(currentDeck)
      ensures newQuestion == old(newQuestion) && newAnswer == old(newAnswer)
      ensures editingCard == old(editingCard)
    {
      newDeckName := s;
    }

    method SetNewQuestion(s: string)
      modifies this
      ensures newQuestion == s
      ensures decks == old(decks) && currentDeck == old(currentDeck)
      ensures newDeckName == old(newDeckName) && newAnswer == old(newAnswer)
      ensures editingCard == old(editingCard)
    {
      newQuestion := s;
    }

    method SetNewAnswer(s: string)
      modifies this
      ensures newAnswer == s
      ensures decks == old(decks) && currentDeck == old(currentDeck)
      ensures newDeckName == old(newDeckName) && newQuestion == old(newQuestion)
      ensures editingCard == old(editingCard)
    {
      newAnswer := s;
    }

    /** Choosing a deck in the selector. */
    method SelectDeck(id: string)
      modifies this
      ensures currentDeck == id
      ensures decks == old(decks) && editingCard == old(editingCard)
      ensures newDeckName == old(newDeckName)
      ensures newQuestion == old(newQuestion) && newAnswer == old(newAnswer)
    {
      currentDeck := id;
    }

    /** The edit button of a table row. */
    method StartEditing(card: Flashcard)
      modifies this
      ensures editingCard == Some(card)
      ensures decks == old(decks) && currentDeck == old(currentDeck)
      ensures newDeckName == old(newDeckName)
      ensures newQuestion == old(newQuestion) && newAnswer == old(newAnswer)
    {
      editingCard := Some(card);
    }

    /** Typing in the edit dialog's question field. */
    method EditQuestion(q: string)
      requires editingCard.Some?
      modifies this
      ensures editingCard == Some(old(editingCard).value.(question := q))
      ensures decks == old(decks) && currentDeck == old(currentDeck)
      ensures newDeckName == old(newDeckName)
      ensures newQuestion == old(newQuestion) && newAnswer == old(newAnswer)
    {
      editingCard := Some(editingCard.value.(question := q));
    }

    /** Typing in the edit dialog's answer field. */
    method EditAnswer(a: string)
      requires editingCard.Some?
      modifies this
      ensures editingCard == Some(old(editingCard).value.(answer := a))
      ensures decks == old(decks) && currentDeck == old(currentDeck)
      ensures newDeckName == old(newDeckName)
      ensures newQuestion == old(newQuestion) && newAnswer == old(newAnswer)
    {
      editingCard := Some(editingCard.value.(answer := a));
    }

    /** addDeck; `freshId` is the clock reading the page turns into the id. */
    method AddDeck(freshId: string)
      modifies this
      ensures old(newDeckName) == "" ==>
                decks == old(decks) && currentDeck == old(currentDeck) && newDeckName == ""
      ensures old(newDeckName) != "" ==>
                decks == old(decks) + [Deck(freshId, old(newDeckName), [])]
                && currentDeck == freshId && newDeckName == ""
      ensures newQuestion == old(newQuestion) && newAnswer == old(newAnswer)
      ensures editingCard == old(editingCard)
    {
      if newDeckName != "" {
        var newDeck := Deck(freshId, newDeckName, []);
        decks := decks + [newDeck];
        newDeckName := "";
        currentDeck := newDeck.id;
      }
    }

    /** addFlashcard; `freshId` is the clock reading the page turns into the id. */
    method AddFlashcard(freshId: string)
      modifies this
      ensures var ok := old(newQuestion) != "" && old(newAnswer) != "" && old(currentDeck) != "";
              if ok then
                decks == MapCurrent(old(decks), old(currentDeck),
                           Append(Flashcard(freshId, old(newQuestion), old(newAnswer), None, None)))
                && newQuestion == "" && newAnswer == ""
              else
                decks == old(decks) && newQuestion == old(newQuestion) && newAnswer == old(newAnswer)
      ensures currentDeck == old(currentDeck) && newDeckName == old(newDeckName)
      ensures editingCard == old(editingCard)
    {
      if newQuestion != "" && newAnswer != "" && currentDeck != "" {
        var newCard := Flashcard(freshId, newQuestion, newAnswer, None, None);
        decks := MapCurrent(decks, currentDeck, Append(newCard));
        newQuestion := "";
        newAnswer := "";
      }
    }

    /** updateFlashcard: saves the card being edited over every card with its id
        in the current deck, then closes the edit. */
    method UpdateFlashcard()
      modifies this
      ensures var ok := old(editingCard).Some? && old(editingCard).value.question != ""
                        && old(editingCard).value.answer != "" && old(currentDeck) != "";
              if ok then
                decks == MapCurrent(old(decks), old(currentDeck), Replace(old(editingCard).value))
                && editingCard == None
              else
                decks == old(decks) && editingCard == old(editingCard)
      ensures currentDeck == old(currentDeck) && newDeckName == old(newDeckName)
      ensures newQuestion == old(newQuestion) && newAnswer == old(newAnswer)
    {
      if editingCard.Some? && editingCard.value.question != ""
         && editingCard.value.answer != "" && currentDeck != ""
      {
        decks := MapCurrent(decks, currentDeck, Replace(editingCard.value));
        editingCard := None;
      }
    }

    /** deleteFlashcard: no guard; a current id that names no deck leaves the
        list as it was. */
    method DeleteFlashcard(id: string)
      modifies this
      ensures decks == MapCurrent(old(decks), old(currentDeck), Remove(id))
      ensures currentDeck == old(currentDeck) && newDeckName == old(newDeckName)
      ensures newQuestion == old(newQuestion) && newAnswer == old(newAnswer)
      ensures editingCard == old(editingCard)
    {
      decks := MapCurrent(decks, currentDeck, Remove(id));
    }
  }
}
