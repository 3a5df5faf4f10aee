/**
 Movement generation: the continuum cards a player may move to, given the
 cards in hand and the player's position and orientation.
 */
module ActionService {
  import opened Cards
  import opened Seqs

  /**
   Where `Array.prototype.slice` cuts a sequence of length `len` when given
   `position`: a negative position counts back from the end, and the cut is
   clamped to the sequence.
   */
  function SliceIndex(position: int, len: nat): (k: nat)
    ensures k <= len
    ensures 0 <= position <= len ==> k == position
  {
    if position < 0 then (if len + position < 0 then 0 else len + position)
    else if position > len then len
    else position
  }

  /** The continuum in the player's direction of travel: reversed for a `Top` player. */
  function Oriented(continuum: seq<Card>, orientation: PlayerOrientation): (r: seq<Card>)
    ensures |r| == |continuum|
    ensures orientation == Bottom ==> r == continuum
    ensures orientation == Top ==> forall i :: 0 <= i < |r| ==> r[i] == continuum[|continuum| - 1 - i]
  {
    if orientation == Top then Reversed(continuum) else continuum
  }

  /**
   The cards behind the player (`past`) and from the player's own position
   onward (`future`).
   */
  function Split(continuum: seq<Card>, position: int): (r: (seq<Card>, seq<Card>))
    ensures r.0 + r.1 == continuum
    ensures 0 <= position <= |continuum| ==> |r.0| == position
  {
    var k := SliceIndex(position, |continuum|);
    (continuum[..k], continuum[k..])
  }

  predicate SharesSuitOrColor(cardInHand: Card, card: Card) {
    cardInHand.cardType.suit == card.cardType.suit || cardInHand.cardType.color == card.cardType.color
  }

  function SharesWith(cardInHand: Card): Card -> bool {
    card => SharesSuitOrColor(cardInHand, card)
  }

  /** The future card reached by jumping as far as the hand card's value, if there is one. */
  predicate HasJump(cardInHand: Card, future: seq<Card>) {
    0 <= cardInHand.cardType.value < |future|
  }

  /**
   The destinations one hand card opens: every past card sharing its suit or
   colour, in continuum order, then the future card at the offset given by the
   hand card's value, when the future is that long.
   */
  function ValidDestinations(cardInHand: Card, past: seq<Card>, future: seq<Card>): (r: seq<Card>)
    ensures |r| <= |past| + 1
    ensures forall c :: c in r <==>
      (c in past && SharesSuitOrColor(cardInHand, c)) || (HasJump(cardInHand, future) && c == future[cardInHand.cardType.value])
  {
    var matches := Filter(past, SharesWith(cardInHand));
    if HasJump(cardInHand, future) then matches + [future[cardInHand.cardType.value]] else matches
  }

  /**
   The past destinations keep continuum order and each matching past card
   occurs as often as in the past; the jump target, if any, comes last.
   */
  lemma ValidDestinationsOrder(cardInHand: Card, past: seq<Card>, future: seq<Card>)
    ensures var r := ValidDestinations(cardInHand, past, future);
      var n := if HasJump(cardInHand, future) then |r| - 1 else |r|;
      && 0 <= n
      && IsSubsequence(r[..n], past)
      && (forall c :: multiset(r[..n])[c] == if SharesSuitOrColor(cardInHand, c) then multiset(past)[c] else 0)
      && (HasJump(cardInHand, future) ==> r[n] == future[cardInHand.cardType.value])
  {
    var r := ValidDestinations(cardInHand, past, future);
    var matches := Filter(past, SharesWith(cardInHand));
    FilterMultiset(past, SharesWith(cardInHand));
    FilterSubsequence(past, SharesWith(cardInHand));
    assert r[..|matches|] == matches;
  }

  /**
   A card value of at least 1 never makes a player jump onto the card at its
   own position, the first card of the future, when that card appears nowhere
   else in the continuum.
   */
  lemma OwnPositionNeverJumpTarget(cardInHand: Card, past: seq<Card>, future: seq<Card>)
    requires cardInHand.cardType.value >= 1
    requires |future| > 0
    requires future[0] !in past
    requires forall j :: 1 <= j < |future| ==> future[j] != future[0]
    ensures future[0] !in ValidDestinations(cardInHand, past, future)
  {
  }

  /** The destinations of every hand card, concatenated in hand order. */
  function Destinations(hand: seq<Card>, past: seq<Card>, future: seq<Card>): (r: seq<Card>)
    ensures |hand| == 0 ==> r == []
    ensures forall c :: c in r ==> c in past || c in future
  {
    if |hand| == 0 then []
    else ValidDestinations(hand[0], past, future) + Destinations(hand[1..], past, future)
  }

  /** A card is a destination exactly when some hand card opens it. */
  lemma {:induction false} DestinationsMembership(hand: seq<Card>, past: seq<Card>, future: seq<Card>, c: Card)
    ensures c in Destinations(hand, past, future) <==>
      exists i :: 0 <= i < |hand| && c in ValidDestinations(hand[i], past, future)
    decreases |hand|
  {
    if |hand| != 0 {
      DestinationsMembership(hand[1..], past, future, c);
      assert forall i :: 1 <= i < |hand| ==> hand[i] == hand[1..][i - 1];
      if c in Destinations(hand[1..], past, future) {
        var i :| 0 <= i < |hand[1..]| && c in ValidDestinations(hand[1..][i], past, future);
        assert c in ValidDestinations(hand[i + 1], past, future);
      }
    }
  }

  /** Each hand card adds at most one destination per past card, plus one jump. */
  lemma {:induction false} DestinationsLength(hand: seq<Card>, past: seq<Card>, future: seq<Card>)
    ensures |Destinations(hand, past, future)| <= |hand| * (|past| + 1)
    decreases |hand|
  {
    if |hand| != 0 {
      DestinationsLength(hand[1..], past, future);
      MultiplySucc(|hand| - 1, |past| + 1);
    }
  }

  /** Movement for a hand split in two is the movement of each part, in order. */
  lemma {:induction false} DestinationsConcat(hand: seq<Card>, more: seq<Card>, past: seq<Card>, future: seq<Card>)
    ensures Destinations(hand + more, past, future) == Destinations(hand, past, future) + Destinations(more, past, future)
    decreases |hand|
  {
    if |hand| == 0 {
      assert hand + more == more;
    } else {
      assert (hand + more)[0] == hand[0];
      assert (hand + more)[1..] == hand[1..] + more;
      DestinationsConcat(hand[1..], more, past, future);
    }
  }

  /** The moves `getMovement` returns, as a function of the continuum it is given. */
  function Movement(player: Player, hand: seq<Card>, continuum: seq<Card>): (r: seq<Card>)
    ensures forall c :: c in r ==> c in continuum
  {
    var oriented := Oriented(continuum, player.orientation);
    ReversedSameElements(continuum);
    var (past, future) := Split(oriented, player.position);
    assert forall c :: c in past || c in future ==> c in oriented;
    Destinations(hand, past, future)
  }

  /** A hand of `h` cards opens at most `h` times one more than the continuum's length. */
  lemma MovementLength(player: Player, hand: seq<Card>, continuum: seq<Card>)
    ensures |Movement(player, hand, continuum)| <= |hand| * (|continuum| + 1)
  {
    var (past, future) := Split(Oriented(continuum, player.orientation), player.position);
    DestinationsLength(hand, past, future);
    MultiplyMonotone(|hand|, |past| + 1, |continuum| + 1);
  }

  lemma MultiplySucc(a: nat, b: nat)
    ensures (a + 1) * b == a * b + b
  {
  }

  lemma MultiplyMonotone(a: nat, b: nat, c: nat)
    requires b <= c
    ensures a * b <= a * c
  {
  }

  /** Reverses `a` in place. */
  method ReverseInPlace(a: array<Card>)
    modifies a
    ensures a[..] == Reversed(old(a[..]))
  {
    ghost var s := a[..];
    var i := 0;
    while i < a.Length / 2
      invariant 0 <= i <= a.Length / 2
      invariant forall k :: 0 <= k < i ==> a[k] == s[a.Length - 1 - k] && a[a.Length - 1 - k] == s[k]
      invariant forall k :: i <= k < a.Length - i ==> a[k] == s[k]
    {
      a[i], a[a.Length - 1 - i] := a[a.Length - 1 - i], a[i];
      i := i + 1;
    }
    assert forall k :: 0 <= k < a.Length ==> a[k] == s[a.Length - 1 - k];
  }

  /**
   The movement generator as written: for a `Top` player it reverses the
   caller's continuum array in place before splitting it at the player's
   position, then collects the destinations of each hand card.
   */
  method GetMovement(player: Player, hand: seq<Card>, continuum: array<Card>) returns (r: seq<Card>)
    modifies continuum
    ensures continuum[..] == Oriented(old(continuum[..]), player.orientation)
    ensures r == Movement(player, hand, old(continuum[..]))
  {
    if player.orientation == Top {
      ReverseInPlace(continuum);
    }
    var (past, future) := Split(continuum[..], player.position);
    r := [];
    for i := 0 to |hand|
      modifies {}
      invariant r == Destinations(hand[..i], past, future)
    {
      assert hand[..i + 1] == hand[..i] + [hand[i]];
      DestinationsConcat(hand[..i], [hand[i]], past, future);
      r := r + ValidDestinations(hand[i], past, future);
    }
    assert hand[..|hand|] == hand;
  }

  /**
   Because the reversal is done in place, a second call for the same `Top`
   player on the same array walks the continuum in its stored order, as if
   the player were `Bottom`.
   */
  lemma RepeatedTopCallSeesStoredOrder(player: Player, hand: seq<Card>, continuum: seq<Card>)
    requires player.orientation == Top
    ensures Movement(player, hand, Oriented(continuum, player.orientation))
         == Movement(player.(orientation := Bottom), hand, continuum)
  {
    ReversedInvolution(continuum);
  }
}
