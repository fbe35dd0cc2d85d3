/** The flashcard carousel of the student dashboard
    (web-interface/frontned/src/pages/student/Dashboard.tsx): which card is
    shown, how the shown card is turned over, and how a swipe on it is read. */
module Flashcards {

  datatype Flashcard = Flashcard(question: string, answer: string, explanation: string)

  /** How the shown card looks: turned to its answer, with its explanation
      shown, and the rotation of the card in degrees. */
  datatype CardFace = CardFace(flipped: bool, showExplanation: bool, rotation: int)

  /** resetCard: question side up, no rotation. */
  const Fresh := CardFace(false, false, 0)

  /** The faces the carousel can show: the explanation only on the answer
      side, and a half turn exactly when turned over. */
  predicate FaceValid(f: CardFace) {
    (f.showExplanation ==> f.flipped) && f.rotation == (if f.flipped then 180 else 0)
  }

  /** toggleAnswer: hide a shown explanation; else turn the card over by
      half a turn; else show the explanation. */
  function Toggled(f: CardFace): (r: CardFace)
    ensures f.showExplanation ==> r == f.(showExplanation := false)
    ensures !f.showExplanation && !f.flipped ==> r == CardFace(true, false, f.rotation + 180)
    ensures !f.showExplanation && f.flipped ==> r == f.(showExplanation := true)
  {
    if f.showExplanation then f.(showExplanation := false)
    else if !f.flipped then f.(rotation := f.rotation + 180, flipped := true)
    else f.(showExplanation := true)
  }

  /** Toggling keeps a valid face valid, never turns the card back, and
      once turned it alternates between showing and hiding the
      explanation. */
  lemma ToggleCycle(f: CardFace)
    requires FaceValid(f)
    ensures FaceValid(Toggled(f)) && Toggled(f).flipped
    ensures f.flipped ==> Toggled(Toggled(f)) == f
    ensures Toggled(Toggled(Toggled(Fresh))) == CardFace(true, false, 180)
  {
  }

  /** What a tap, a swipe or a button press asks for. */
  datatype Action = Next | Prev | Toggle | Ignore

  /** handleTouchEnd's reading of `end - start`: more than 50 to the right
      is the previous card, more than 50 to the left the next one, under 20
      either way a tap, anything else nothing. */
  function SwipeOf(d: real): (a: Action)
    ensures a == Prev <==> d > 50.0
    ensures a == Next <==> d < -50.0
    ensures a == Toggle <==> -20.0 < d < 20.0
    ensures a == Ignore <==> (20.0 <= d <= 50.0 || -50.0 <= d <= -20.0)
  {
    if d > 50.0 then Prev
    else if d < -50.0 then Next
    else if (if d < 0.0 then -d else d) < 20.0 then Toggle
    else Ignore
  }

  /** A swipe read in the mirror goes the other way; a tap stays a tap. */
  lemma SwipeMirror(d: real)
    ensures SwipeOf(d) == Prev <==> SwipeOf(-d) == Next
    ensures SwipeOf(d) == Toggle <==> SwipeOf(-d) == Toggle
    ensures SwipeOf(d) == Ignore <==> SwipeOf(-d) == Ignore
  {
  }

  /** The shown card and face after an action on a deck of `count` cards:
      the next and previous buttons move only inside the deck, and reset
      the card when they move. */
  function Apply(a: Action, count: nat, active: nat, face: CardFace): (nat, CardFace) {
    match a
    case Next => if active < count - 1 then (active + 1, Fresh) else (active, face)
    case Prev => if active > 0 then (active - 1, Fresh) else (active, face)
    case Toggle => (active, Toggled(face))
    case Ignore => (active, face)
  }

  /** The shown card is in the deck (the first position of an empty one). */
  predicate InDeck(count: nat, active: nat) {
    active < count || active == 0
  }

  /** Every action keeps the shown card in the deck and the face valid;
      a move lands next to the old card with a fresh face. */
  lemma ApplyKeepsDeck(a: Action, count: nat, active: nat, face: CardFace)
    requires InDeck(count, active) && FaceValid(face)
    ensures var (i, f) := Apply(a, count, active, face);
      InDeck(count, i) && FaceValid(f) &&
      (i != active ==> f == Fresh && (i == active + 1 || i + 1 == active))
  {
    if a == Toggle {
      ToggleCycle(face);
    }
  }

  /** Next undoes Prev and Prev undoes Next whenever the first one moves. */
  lemma NextPrevInverse(count: nat, active: nat, face: CardFace)
    ensures active < count - 1 ==> Apply(Prev, count, Apply(Next, count, active, face).0, Fresh) == (active, Fresh)
    ensures 0 < active < count ==> Apply(Next, count, Apply(Prev, count, active, face).0, Fresh) == (active, Fresh)
  {
  }

  class FlashcardView {
    var cards: seq<Flashcard>
    var active: nat
    var face: CardFace

    predicate Valid()
      reads this
    {
      InDeck(|cards|, active) && FaceValid(face)
    }

    /** A deck shown from its first card, question side up. */
    constructor(deck: seq<Flashcard>)
      ensures Valid()
      ensures cards == deck && active == 0 && face == Fresh
    {
      cards := deck;
      active := 0;
      face := Fresh;
    }

    /** toggleAnswer. */
    method ToggleAnswer()
      requires Valid()
      modifies this
      ensures Valid()
      ensures cards == old(cards) && active == old(active) && face == Toggled(old(face))
    {
      ToggleCycle(face);
      if face.showExplanation {
        face := face.(showExplanation := false);
        return;
      }
      if !face.flipped {
        face := face.(rotation := face.rotation + 180, flipped := true);
      } else {
        face := face.(showExplanation := true);
      }
    }

    /** resetCard. */
    method ResetCard()
      modifies this
      ensures cards == old(cards) && active == old(active) && face == Fresh
    {
      face := Fresh;
    }

    /** nextFlashcard. */
    method NextFlashcard()
      requires Valid()
      modifies this
      ensures Valid()
      ensures cards == old(cards) && (active, face) == Apply(Next, |cards|, old(active), old(face))
    {
      if active < |cards| - 1 {
        ResetCard();
        active := active + 1;
      }
    }

    /** prevFlashcard. */
    method PrevFlashcard()
      requires Valid()
      modifies this
      ensures Valid()
      ensures cards == old(cards) && (active, face) == Apply(Prev, |cards|, old(active), old(face))
    {
      if active > 0 {
        ResetCard();
        active := active - 1;
      }
    }

    /** handleTouchEnd, given where the touch started and where it last
        moved. */
    method TouchEnd(startX: real, endX: real)
      requires Valid()
      modifies this
      ensures Valid()
      ensures cards == old(cards) && (active, face) == Apply(SwipeOf(endX - startX), |cards|, old(active), old(face))
    {
      var distance := endX - startX;
      if distance > 50.0 {
        PrevFlashcard();
      } else if distance < -50.0 {
        NextFlashcard();
      } else if (if distance < 0.0 then -distance else distance) < 20.0 {
        ToggleAnswer();
      }
    }
  }
}
