/** Blackjack (cogs/gambling.py, `Gambling.blackjack`): one round against
    the dealer with a soft-ace hand valuation. The cards dealt and the
    player's replies are inputs: `cards(i)` is the i-th card `deal_card`
    returns, and `replies` lists the answers to successive hit-or-stand
    prompts, the end of the list standing for a prompt left unanswered for
    30 seconds. A card is its rank; the suit plays no part in any value. */
module Blackjack {
  import opened Basics
  import opened Store

  datatype Rank = Two | Three | Four | Five | Six | Seven | Eight | Nine | Ten | Jack | Queen | King | Ace

  /** The `card_values` table: pip cards at face value, court cards 10, an
      ace 11. */
  function CardValue(c: Rank): nat {
    match c
    case Two => 2
    case Three => 3
    case Four => 4
    case Five => 5
    case Six => 6
    case Seven => 7
    case Eight => 8
    case Nine => 9
    case Ace => 11
    case _ => 10
  }

  /** Sum of the table values of a hand, every ace at 11. */
  function RawSum(hand: seq<Rank>): nat {
    if |hand| == 0 then 0 else RawSum(hand[..|hand| - 1]) + CardValue(hand[|hand| - 1])
  }

  /** Number of aces in a hand. */
  function Aces(hand: seq<Rank>): (n: nat)
    ensures n <= |hand|
  {
    if |hand| == 0 then 0 else Aces(hand[..|hand| - 1]) + (if hand[|hand| - 1] == Ace then 1 else 0)
  }

  /** The hand's value with every ace at 1. */
  function HardSum(hand: seq<Rank>): int {
    RawSum(hand) - 10 * Aces(hand)
  }

  /** The demotion loop: while the value is over 21 and an ace still counts
      11, count it 1 instead. */
  function Reduce(value: int, aces: nat): int
    decreases aces
  {
    if value > 21 && aces > 0 then Reduce(value - 10, aces - 1) else value
  }

  /** `calculate_hand_value`. */
  function HandValue(hand: seq<Rank>): int {
    Reduce(RawSum(hand), Aces(hand))
  }

  /** What the demotion loop achieves: it removes 10 per demoted ace, at
      most once per ace; a result over 21 means every ace was demoted; and
      an ace is demoted only while the value is bust, so when any was the
      result is above 11: the value with one ace fewer demoted would bust. */
  lemma {:induction false} ReduceSpec(value: int, aces: nat)
    ensures var r := Reduce(value, aces);
            && (value - r) % 10 == 0
            && 0 <= value - r <= 10 * aces
            && (r > 21 ==> r == value - 10 * aces)
            && (r < value ==> r > 11)
    decreases aces
  {
    if value > 21 && aces > 0 {
      ReduceSpec(value - 10, aces - 1);
    }
  }

  /** The same facts about a hand: its value lies between the all-aces-low
      sum and the all-aces-high sum, differs from the latter by a multiple of
      10, and is bust only when every ace already counts 1. */
  lemma HandValueBounds(hand: seq<Rank>)
    ensures HardSum(hand) <= HandValue(hand) <= RawSum(hand)
    ensures (RawSum(hand) - HandValue(hand)) % 10 == 0
    ensures HandValue(hand) > 21 ==> HandValue(hand) == HardSum(hand)
    ensures HandValue(hand) < RawSum(hand) ==> HandValue(hand) > 11
  {
    ReduceSpec(RawSum(hand), Aces(hand));
  }

  /** Sample hands: two tens make 20, an ace and a ten 21, two aces and a
      nine 21, and king-queen-two busts at 22. */
  lemma HandValueExamples()
    ensures HandValue([Ten, Ten]) == 20
    ensures HandValue([Ace, Ten]) == 21
    ensures HandValue([Ace, Ace, Nine]) == 21
    ensures HandValue([King, Queen, Two]) == 22
  {
    assert [Ace, Ace, Nine][..2] == [Ace, Ace];
    assert [Ace, Ace][..1] == [Ace];
    assert [King, Queen, Two][..2] == [King, Queen];
    assert [King, Queen][..1] == [King];
    assert [Ace, Ten][..1] == [Ace];
    assert [Ten, Ten][..1] == [Ten];
    assert [Ace][..0] == [King][..0] == [Ten][..0] == [];
  }

  /** `calculate_hand_value` as the source writes it: a summing pass, an
      ace-counting pass, then the demotion loop. */
  method CalculateHandValue(hand: seq<Rank>) returns (value: int)
    ensures value == HandValue(hand)
    ensures HardSum(hand) <= value <= RawSum(hand)
    ensures value > 21 ==> value == HardSum(hand)
  {
    value := 0;
    var i := 0;
    while i < |hand|
      invariant 0 <= i <= |hand|
      invariant value == RawSum(hand[..i])
    {
      assert hand[..i + 1][..i] == hand[..i];
      value := value + CardValue(hand[i]);
      i := i + 1;
    }
    assert hand[..|hand|] == hand;
    var aces := 0;
    i := 0;
    while i < |hand|
      invariant 0 <= i <= |hand|
      invariant aces == Aces(hand[..i])
    {
      assert hand[..i + 1][..i] == hand[..i];
      if hand[i] == Ace {
        aces := aces + 1;
      }
      i := i + 1;
    }
    while value > 21 && aces > 0
      invariant Reduce(value, aces) == HandValue(hand)
      decreases aces
    {
      value := value - 10;
      aces := aces - 1;
    }
    HandValueBounds(hand);
  }

  /** Adding a card raises the all-aces-low sum by at least 1. */
  lemma HardSumGrows(hand: seq<Rank>, c: Rank)
    ensures HardSum(hand + [c]) >= HardSum(hand) + 1
  {
    assert (hand + [c])[..|hand|] == hand;
  }

  // ---------------------------------------------------------------------
  // The round
  // ---------------------------------------------------------------------

  datatype Reply = Hit | Stand

  /** The cards `cards(first)`, ..., `cards(stop - 1)`. */
  function Dealt(cards: nat -> Rank, first: nat, stop: nat): (r: seq<Rank>)
    requires first <= stop
    decreases stop - first
    ensures |r| == stop - first
    ensures forall k :: 0 <= k < |r| ==> r[k] == cards(first + k)
  {
    if first == stop then [] else [cards(first)] + Dealt(cards, first + 1, stop)
  }

  /** The player's loop: while the hand is under 21, prompt; a hit takes the
      next card, a stand or an unanswered prompt ends the turn. Returns the
      final hand and the index of the next card to deal. */
  function PlayerTurn(hand: seq<Rank>, next: nat, cards: nat -> Rank, replies: seq<Reply>): (r: (seq<Rank>, nat))
    ensures next <= r.1 <= next + |replies|
    ensures r.0 == hand + Dealt(cards, next, r.1)
    ensures HandValue(r.0) >= 21 || r.1 - next == |replies| || replies[r.1 - next] == Stand
    decreases |replies|
  {
    if HandValue(hand) >= 21 || |replies| == 0 || replies[0] == Stand then
      assert hand + [] == hand;
      (hand, next)
    else
      var r := PlayerTurn(hand + [cards(next)], next + 1, cards, replies[1..]);
      assert hand + [cards(next)] + Dealt(cards, next + 1, r.1) == hand + Dealt(cards, next, r.1);
      r
  }

  /** Every prompt answered before the player's turn ended was a hit. */
  lemma {:induction false} PlayerTurnHits(hand: seq<Rank>, next: nat, cards: nat -> Rank, replies: seq<Reply>)
    ensures var r := PlayerTurn(hand, next, cards, replies);
            forall k :: 0 <= k < r.1 - next ==> replies[k] == Hit
    decreases |replies|
  {
    if !(HandValue(hand) >= 21 || |replies| == 0 || replies[0] == Stand) {
      PlayerTurnHits(hand + [cards(next)], next + 1, cards, replies[1..]);
    }
  }

  /** The player is prompted only while the hand is under 21: every hand
      that led to a hit was worth less than 21. */
  lemma {:induction false} PlayerTurnUnder21(hand: seq<Rank>, next: nat, cards: nat -> Rank, replies: seq<Reply>)
    ensures var r := PlayerTurn(hand, next, cards, replies);
            forall j :: |hand| <= j < |r.0| ==> HandValue(r.0[..j]) < 21
    decreases |replies|
  {
    var r := PlayerTurn(hand, next, cards, replies);
    if !(HandValue(hand) >= 21 || |replies| == 0 || replies[0] == Stand) {
      var hand' := hand + [cards(next)];
      PlayerTurnUnder21(hand', next + 1, cards, replies[1..]);
      assert r == PlayerTurn(hand', next + 1, cards, replies[1..]);
      forall j | |hand| <= j < |r.0| ensures HandValue(r.0[..j]) < 21 {
        if j == |hand| {
          assert r.0[..j] == hand;
        }
      }
    }
  }

  /** The dealer's loop: draw while the hand is under 17. Returns the final
      hand and the index of the next card. */
  function DealerTurn(hand: seq<Rank>, next: nat, cards: nat -> Rank): (r: (seq<Rank>, nat))
    ensures next <= r.1
    ensures r.0 == hand + Dealt(cards, next, r.1)
    ensures HandValue(r.0) >= 17
    decreases 17 - HardSum(hand)
  {
    if HandValue(hand) >= 17 then
      assert Dealt(cards, next, next) == [];
      assert hand + [] == hand;
      (hand, next)
    else
      HandValueBounds(hand);
      HardSumGrows(hand, cards(next));
      var hand' := hand + [cards(next)];
      var r := DealerTurn(hand', next + 1, cards);
      assert r.0 == hand + Dealt(cards, next, r.1) by {
        assert Dealt(cards, next, r.1) == [cards(next)] + Dealt(cards, next + 1, r.1);
      }
      r
  }

  /** The dealer draws only while the hand is under 17. */
  lemma {:induction false} DealerTurnDraws(hand: seq<Rank>, next: nat, cards: nat -> Rank)
    ensures var r := DealerTurn(hand, next, cards);
            forall j :: |hand| <= j < |r.0| ==> HandValue(r.0[..j]) < 17
    decreases 17 - HardSum(hand)
  {
    var r := DealerTurn(hand, next, cards);
    if HandValue(hand) < 17 {
      HandValueBounds(hand);
      HardSumGrows(hand, cards(next));
      var hand' := hand + [cards(next)];
      DealerTurnDraws(hand', next + 1, cards);
      assert r == DealerTurn(hand', next + 1, cards);
      forall j | |hand| <= j < |r.0| ensures HandValue(r.0[..j]) < 17 {
        if j == |hand| {
          assert r.0[..j] == hand;
        }
      }
    }
  }

  datatype Settlement = PlayerBust | DealerBust | DealerHigher | PlayerHigher | Push

  /** The comparison after both turns, in the source's order of tests. */
  function Settle(player: int, dealer: int): (s: Settlement)
    ensures s == PlayerBust <==> player > 21
    ensures s == DealerBust <==> player <= 21 && dealer > 21
    ensures s == DealerHigher <==> player <= 21 && dealer <= 21 && dealer > player
    ensures s == PlayerHigher <==> player <= 21 && dealer <= 21 && dealer < player
    ensures s == Push <==> player <= 21 && dealer == player
  {
    if player > 21 then PlayerBust
    else if dealer > 21 then DealerBust
    else if dealer > player then DealerHigher
    else if dealer < player then PlayerHigher
    else Push
  }

  /** What is paid back after the bet was taken: twice the bet on a win,
      the bet on a push, nothing on a loss. */
  function Credit(s: Settlement, bet: int): int {
    match s
    case DealerBust => bet * 2
    case PlayerHigher => bet * 2
    case Push => bet
    case _ => 0
  }

  datatype Game = Game(player: seq<Rank>, dealer: seq<Rank>, settlement: Settlement)

  /** The command's outcome. The two refusals reset the daily cooldown;
      a played round consumes it. */
  datatype Outcome =
    | BetOutOfRange
    | NotEnoughCash
    | Played(game: Game, db: Db)

  /** The `blackjack` command. The bet is taken before any card is dealt;
      the player gets cards 0 and 1, the dealer 2 and 3. A bust player loses
      without the dealer drawing. */
  function Play(db: Db, m: MemberId, bet: int, cards: nat -> Rank, replies: seq<Reply>): (r: Outcome)
    ensures r == BetOutOfRange <==> bet < 100 || bet > 1000
    ensures r == NotEnoughCash <==> 100 <= bet <= 1000 && GetCash(db, m) < bet
    ensures r.Played? ==> m in db.money && r.db == db.(money := r.db.money)
    ensures r.Played? ==> forall k :: k != m ==> GetCash(r.db, k) == GetCash(db, k)
    ensures r.Played? ==> |r.game.player| >= 2 && r.game.player[..2] == [cards(0), cards(1)]
    ensures r.Played? ==> |r.game.dealer| >= 2 && r.game.dealer[..2] == [cards(2), cards(3)]
    ensures r.Played? ==> r.game.settlement == Settle(HandValue(r.game.player), HandValue(r.game.dealer))
    ensures r.Played? && r.game.settlement != PlayerBust ==> HandValue(r.game.dealer) >= 17
    ensures r.Played? && r.game.settlement == PlayerBust ==> r.game.dealer == [cards(2), cards(3)]
    ensures r.Played? ==> r.game.player == PlayerTurn([cards(0), cards(1)], 4, cards, replies).0
    ensures r.Played? && r.game.settlement != PlayerBust ==>
              r.game.dealer == DealerTurn([cards(2), cards(3)], PlayerTurn([cards(0), cards(1)], 4, cards, replies).1, cards).0
  {
    if bet < 100 || bet > 1000 then BetOutOfRange
    else if GetCash(db, m) < bet then NotEnoughCash
    else
      var debited := RemoveCash(db, m, bet);
      var (player, next) := PlayerTurn([cards(0), cards(1)], 4, cards, replies);
      var dealer0 := [cards(2), cards(3)];
      assert player[..2] == [cards(0), cards(1)];
      if HandValue(player) > 21 then
        Played(Game(player, dealer0, PlayerBust), debited)
      else
        var (dealer, _) := DealerTurn(dealer0, next, cards);
        assert dealer[..2] == dealer0;
        var s := Settle(HandValue(player), HandValue(dealer));
        var credit := Credit(s, bet);
        Played(Game(player, dealer, s), if credit > 0 then AddCash(debited, m, credit) else debited)
  }

  /** Over a played round the balance moves by the credit minus the bet:
      -bet on a loss, 0 on a push, +bet on a win. */
  lemma PlayNetChange(db: Db, m: MemberId, bet: int, cards: nat -> Rank, replies: seq<Reply>)
    ensures var r := Play(db, m, bet, cards, replies);
            r.Played? ==>
              && GetCash(r.db, m) == GetCash(db, m) - bet + Credit(r.game.settlement, bet)
              && GetCash(r.db, m) - GetCash(db, m) in {-bet, 0, bet}
              && (GetCash(r.db, m) > GetCash(db, m) <==> r.game.settlement in {DealerBust, PlayerHigher})
  {
  }

  /** Standing and letting the prompt time out play out identically, and
      nothing after a stand is read. */
  lemma TimeoutIsStand(db: Db, m: MemberId, bet: int, cards: nat -> Rank, rest: seq<Reply>)
    ensures Play(db, m, bet, cards, [Stand] + rest) == Play(db, m, bet, cards, [])
  {
  }

  /** Two opening cards worth 21 end the player's turn without a prompt:
      the replies do not matter. */
  lemma NaturalSkipsPrompts(db: Db, m: MemberId, bet: int, cards: nat -> Rank, replies: seq<Reply>)
    requires HandValue([cards(0), cards(1)]) == 21
    ensures Play(db, m, bet, cards, replies) == Play(db, m, bet, cards, [])
  {
  }
}
