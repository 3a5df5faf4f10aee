/**
 The rule logic of the game service: the paradox ("set") detector and the
 dispatch of an action payload to its handler.
 */
module GameService {
  import opened Cards
  import opened Seqs

  // ---------------------------------------------------------------------------
  // Set detection
  // ---------------------------------------------------------------------------

  /**
   A key of the tally. The source keeps one object whose keys are colour
   names, suit names and the value written as a decimal string; those three
   families never collide, so a tagged key is the same map.
   */
  datatype TallyKey = ColorKey(color: Color) | SuitKey(suit: Suit) | ValueKey(value: int)

  /** The card type carries the attribute that `k` names. */
  predicate HasAttribute(t: CardType, k: TallyKey) {
    match k
    case ColorKey(c) => t.color == c
    case SuitKey(s) => t.suit == s
    case ValueKey(v) => t.value == v
  }

  /** The card adds one to the tally for `k`: it has that attribute and is not of the codex colour. */
  predicate Contributes(card: Card, codexColor: Color, k: TallyKey) {
    card.cardType.color != codexColor && HasAttribute(card.cardType, k)
  }

  /** `Contributes` as a test on cards, for counting. */
  function Counted(codexColor: Color, k: TallyKey): Card -> bool {
    (card: Card) => Contributes(card, codexColor, k)
  }

  function NotOfColor(color: Color): Card -> bool {
    (card: Card) => card.cardType.color != color
  }

  /** How many cards of the hand the detector counts under key `k`. */
  function Tally(hand: seq<Card>, codexColor: Color, k: TallyKey): (n: nat)
    ensures n <= |hand|
  {
    CountIf(hand, Counted(codexColor, k))
  }

  /** The hand holds a paradox: some colour, suit or value is counted exactly three times. */
  ghost predicate IsSet(hand: seq<Card>, codexColor: Color) {
    exists k :: Tally(hand, codexColor, k) == 3
  }

  /** The cards of `hand` whose colour is not `color`. */
  function WithoutColor(hand: seq<Card>, color: Color): (r: seq<Card>)
    ensures forall card :: card in r <==> card in hand && card.cardType.color != color
  {
    Filter(hand, NotOfColor(color))
  }

  /** Adds one to the counter of `k`, creating it at 1 when absent. */
  function Increment(m: map<TallyKey, nat>, k: TallyKey): (m': map<TallyKey, nat>)
    ensures m'.Keys == m.Keys + {k}
    ensures m'[k] == (if k in m then m[k] else 0) + 1
    ensures forall k' :: k' in m && k' != k ==> m'[k'] == m[k']
  {
    if k in m then m[k := m[k] + 1] else m[k := 1]
  }

  lemma TallyStep(hand: seq<Card>, codexColor: Color, i: nat, k: TallyKey)
    requires i < |hand|
    ensures Tally(hand[..i + 1], codexColor, k)
         == Tally(hand[..i], codexColor, k) + (if Contributes(hand[i], codexColor, k) then 1 else 0)
  {
    assert hand[..i + 1] == hand[..i] + [hand[i]];
    CountIfConcat(hand[..i], [hand[i]], Counted(codexColor, k));
  }

  /** `m` holds, for every key, the tally of `hand`, and no key whose tally is 0. */
  ghost predicate TallyMap(m: map<TallyKey, nat>, hand: seq<Card>, codexColor: Color) {
    forall k :: (k in m <==> Tally(hand, codexColor, k) > 0) && (k in m ==> m[k] == Tally(hand, codexColor, k))
  }

  /** Adds one card type to the three counters it contributes to. */
  function AddCard(m: map<TallyKey, nat>, t: CardType): map<TallyKey, nat> {
    Increment(Increment(Increment(m, ColorKey(t.color)), SuitKey(t.suit)), ValueKey(t.value))
  }

  /** A card of the codex colour leaves every counter as it was. */
  lemma SkipCard(m: map<TallyKey, nat>, hand: seq<Card>, codexColor: Color, i: nat)
    requires i < |hand| && hand[i].cardType.color == codexColor
    requires TallyMap(m, hand[..i], codexColor)
    ensures TallyMap(m, hand[..i + 1], codexColor)
  {
    forall k ensures (k in m <==> Tally(hand[..i + 1], codexColor, k) > 0)
                  && (k in m ==> m[k] == Tally(hand[..i + 1], codexColor, k)) {
      TallyStep(hand, codexColor, i, k);
    }
  }

  /** Any other card raises the counters of its colour, suit and value. */
  lemma CountCard(m: map<TallyKey, nat>, hand: seq<Card>, codexColor: Color, i: nat)
    requires i < |hand| && hand[i].cardType.color != codexColor
    requires TallyMap(m, hand[..i], codexColor)
    ensures TallyMap(AddCard(m, hand[i].cardType), hand[..i + 1], codexColor)
  {
    var m' := AddCard(m, hand[i].cardType);
    forall k ensures (k in m' <==> Tally(hand[..i + 1], codexColor, k) > 0)
                  && (k in m' ==> m'[k] == Tally(hand[..i + 1], codexColor, k)) {
      CountCardKey(m, hand, codexColor, i, k);
    }
  }

  lemma CountCardKey(m: map<TallyKey, nat>, hand: seq<Card>, codexColor: Color, i: nat, k: TallyKey)
    requires i < |hand| && hand[i].cardType.color != codexColor
    requires k in m <==> Tally(hand[..i], codexColor, k) > 0
    requires k in m ==> m[k] == Tally(hand[..i], codexColor, k)
    ensures k in AddCard(m, hand[i].cardType) <==> Tally(hand[..i + 1], codexColor, k) > 0
    ensures k in AddCard(m, hand[i].cardType) ==> AddCard(m, hand[i].cardType)[k] == Tally(hand[..i + 1], codexColor, k)
  {
    TallyStep(hand, codexColor, i, k);
    AddCardKey(m, hand[i].cardType, k);
  }

  /** `AddCard` raises exactly the counters of the attributes the card type has. */
  lemma AddCardKey(m: map<TallyKey, nat>, t: CardType, k: TallyKey)
    ensures k in AddCard(m, t) <==> k in m || HasAttribute(t, k)
    ensures k in AddCard(m, t) ==>
      AddCard(m, t)[k] == (if k in m then m[k] else 0) + (if HasAttribute(t, k) then 1 else 0)
  {
    var m1 := Increment(m, ColorKey(t.color));
    var m2 := Increment(m1, SuitKey(t.suit));
    assert AddCard(m, t) == Increment(m2, ValueKey(t.value));
  }

  /**
   The set detector. Cards of the codex colour are skipped; every other card
   adds one to the counter of its colour, of its suit and of its value; the
   answer is whether some counter holds exactly 3.
   */
  method HasSet(hand: seq<Card>, codexColor: Color) returns (r: bool)
    ensures r <==> IsSet(hand, codexColor)
  {
    var matches: map<TallyKey, nat> := map[];
    for i := 0 to |hand|
      invariant TallyMap(matches, hand[..i], codexColor)
    {
      var t := hand[i].cardType;
      if t.color == codexColor {
        SkipCard(matches, hand, codexColor, i);
        continue;
      }
      CountCard(matches, hand, codexColor, i);
      matches := AddCard(matches, t);
    }
    assert hand[..|hand|] == hand;
    r := 3 in matches.Values;
    if r {
      var k :| k in matches && matches[k] == 3;
      assert Tally(hand, codexColor, k) == 3;
    }
  }

  /** Adding or removing cards of the codex colour changes no tally. */
  lemma CodexCardsIgnored(hand: seq<Card>, codexColor: Color)
    ensures forall k :: Tally(WithoutColor(hand, codexColor), codexColor, k) == Tally(hand, codexColor, k)
    ensures IsSet(hand, codexColor) <==> IsSet(WithoutColor(hand, codexColor), codexColor)
  {
    forall k ensures Tally(WithoutColor(hand, codexColor), codexColor, k) == Tally(hand, codexColor, k) {
      CountIfAfterFilter(hand, NotOfColor(codexColor), Counted(codexColor, k));
    }
  }

  /** The answer depends only on which cards the hand holds, not on their order. */
  lemma OrderIndependent(hand: seq<Card>, other: seq<Card>, codexColor: Color)
    requires multiset(hand) == multiset(other)
    ensures forall k :: Tally(hand, codexColor, k) == Tally(other, codexColor, k)
    ensures IsSet(hand, codexColor) <==> IsSet(other, codexColor)
  {
    forall k ensures Tally(hand, codexColor, k) == Tally(other, codexColor, k) {
      CountIfPermutation(hand, other, Counted(codexColor, k));
    }
  }

  /**
   Three cards sharing a colour, a suit or a value, none of them of the codex
   colour, form a paradox.
   */
  lemma ThreeMatchingCardsFormSet(hand: seq<Card>, codexColor: Color, k: TallyKey)
    requires |hand| == 3
    requires forall i :: 0 <= i < 3 ==> hand[i].cardType.color != codexColor
    requires forall i :: 0 <= i < 3 ==> HasAttribute(hand[i].cardType, k)
    ensures IsSet(hand, codexColor)
  {
    CountIfAll(hand, Counted(codexColor, k));
    assert Tally(hand, codexColor, k) == 3;
  }

  /**
   A hand with fewer than three cards outside the codex colour holds no
   paradox; in particular three cards of the codex colour, or three matching
   cards one of which has the codex colour, do not.
   */
  lemma FewCountedCardsNoSet(hand: seq<Card>, codexColor: Color)
    requires |WithoutColor(hand, codexColor)| < 3
    ensures !IsSet(hand, codexColor)
  {
    CodexCardsIgnored(hand, codexColor);
    forall k ensures Tally(hand, codexColor, k) < 3 {
      assert Tally(WithoutColor(hand, codexColor), codexColor, k) <= |WithoutColor(hand, codexColor)|;
    }
  }

  /** A fourth counted card moves a counter from 3 to 4: the detector asks for exactly three. */
  lemma FourthCardOverflowsTally(hand: seq<Card>, card: Card, codexColor: Color, k: TallyKey)
    requires Tally(hand, codexColor, k) == 3
    requires Contributes(card, codexColor, k)
    ensures Tally(hand + [card], codexColor, k) == 4
  {
    CountIfConcat(hand, [card], Counted(codexColor, k));
  }

  /**
   Four red cards of the catalog, one of each suit and value, with a blue
   codex: the red counter reaches 4 and every other counter stays at 1 or 0,
   so the detector answers false.
   */
  lemma FourOfAColorIsNotASet()
    ensures !IsSet(FourReds(), Blue)
  {
    forall k ensures Tally(FourReds(), Blue, k) != 3 {
      TallyOfFourReds(k);
    }
  }

  lemma TallyOfFourReds(k: TallyKey)
    ensures Tally(FourReds(), Blue, k) == match k
      case ColorKey(c) => if c == Red then 4 else 0
      case SuitKey(_) => 1
      case ValueKey(v) => if 1 <= v <= 4 then 1 else 0
  {
    var hand := FourReds();
    var p := Counted(Blue, k);
    assert hand == [hand[0]] + [hand[1]] + [hand[2]] + [hand[3]];
    CountIfConcat([hand[0]] + [hand[1]] + [hand[2]], [hand[3]], p);
    CountIfConcat([hand[0]] + [hand[1]], [hand[2]], p);
    CountIfConcat([hand[0]], [hand[1]], p);
  }

  function FourReds(): seq<Card> {
    [ Card(1, 1, Some(1), None, CardType(Red, Key, 1)),
      Card(2, 1, Some(1), None, CardType(Red, Skull, 2)),
      Card(3, 1, Some(1), None, CardType(Red, Ring, 3)),
      Card(4, 1, Some(1), None, CardType(Red, Feather, 4)) ]
  }

  /** With at most three cards in hand, "exactly three" and "at least three" agree. */
  lemma SmallHandExactlyIsAtLeast(hand: seq<Card>, codexColor: Color)
    requires |hand| <= 3
    ensures IsSet(hand, codexColor) <==> exists k :: Tally(hand, codexColor, k) >= 3
  {
  }

  // ---------------------------------------------------------------------------
  // Action dispatch
  // ---------------------------------------------------------------------------

  /** The handlers an action can be routed to. */
  datatype Handler = HandleMove | HandleDeploy | HandleReplace

  /** One `case` label of a switch statement and the handler under it. */
  datatype SwitchCase = SwitchCase(caseType: ActionType, handler: Handler)

  /**
   A switch statement whose cases all end in `break`: the first case whose
   label equals the tag runs, and no case runs when none matches.
   */
  function Switch(cases: seq<SwitchCase>, tag: ActionType): (r: Option<Handler>)
    ensures r.None? <==> forall i :: 0 <= i < |cases| ==> cases[i].caseType != tag
    ensures r.Some? ==>
      exists i :: 0 <= i < |cases| && cases[i].caseType == tag && cases[i].handler == r.value
        && forall j :: 0 <= j < i ==> cases[j].caseType != tag
  {
    if |cases| == 0 then None
    else if cases[0].caseType == tag then Some(cases[0].handler)
    else Switch(cases[1..], tag)
  }

  /** What a call of `performAction` did: which handler ran, and the state it returned. */
  datatype ActionOutcome = ActionOutcome(handled: Option<Handler>, result: Option<GameSnapshot>)

  /** The cases of the action switch as the service writes them: all three are labelled `Move`. */
  const WrittenCases: seq<SwitchCase> :=
    [SwitchCase(Move, HandleMove), SwitchCase(Move, HandleDeploy), SwitchCase(Move, HandleReplace)]

  /** The cases of the action switch with each handler under its own label. */
  const IntendedCases: seq<SwitchCase> :=
    [SwitchCase(Move, HandleMove), SwitchCase(Deploy, HandleDeploy), SwitchCase(Replace, HandleReplace)]

  /**
   The action entry point as written. The handlers have empty bodies, so the
   only effect is which of them is entered; the returned state is always null.
   */
  function PerformAction(userId: int, payload: ActionPayload): (r: ActionOutcome)
    ensures r.handled == Some(HandleMove) <==> payload.actionType == Move
    ensures r.handled.None? <==> payload.actionType != Move
    ensures r.result.None?
  {
    ActionOutcome(Switch(WrittenCases, payload.actionType), None)
  }

  /** The action entry point with the switch labels corrected. */
  function PerformActionIntended(userId: int, payload: ActionPayload): (r: ActionOutcome)
    ensures r.handled == Some(HandleMove) <==> payload.actionType == Move
    ensures r.handled == Some(HandleDeploy) <==> payload.actionType == Deploy
    ensures r.handled == Some(HandleReplace) <==> payload.actionType == Replace
    ensures r.result.None?
  {
    ActionOutcome(Switch(IntendedCases, payload.actionType), None)
  }

  /** As written, the deploy and replace handlers can never be entered. */
  lemma WrittenDispatchDropsDeployAndReplace(userId: int, payload: ActionPayload)
    ensures PerformAction(userId, payload).handled != Some(HandleDeploy)
    ensures PerformAction(userId, payload).handled != Some(HandleReplace)
    ensures payload.actionType != Move ==>
      PerformAction(userId, payload).handled != PerformActionIntended(userId, payload).handled
  {
  }
}
