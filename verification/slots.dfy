/** The slot machine's payout rule (cogs/gambling.py, `SlotsGame`): a
    biased spin and a two-times payout on three equal symbols. The random
    draws are inputs. */
module Slots {
  import opened Basics
  import opened Store

  /** The six reel symbols, in the order of `SlotsGame.symbols`: cherry,
      lemon, bell, watermelon, star, seven. */
  datatype Symbol = Cherry | Lemon | Bell | Watermelon | Star | Seven

  /** Probability with which `spin` forces a winning line. */
  const WinChance: real := 0.35

  /** Whether the three reels show the same symbol. */
  predicate IsTriple(reels: seq<Symbol>)
    requires |reels| == 3
  {
    reels[0] == reels[1] == reels[2]
  }

  /** `spin`: when the uniform draw `roll` falls below the win chance, three
      copies of the chosen `symbol`; otherwise the three independently drawn
      `reels`, which may happen to match as well. */
  function Spin(roll: real, symbol: Symbol, reels: (Symbol, Symbol, Symbol)): (r: seq<Symbol>)
    ensures |r| == 3
    ensures roll < WinChance ==> forall k :: 0 <= k < 3 ==> r[k] == symbol
    ensures roll >= WinChance ==> r == [reels.0, reels.1, reels.2]
  {
    if roll < WinChance then [symbol, symbol, symbol] else [reels.0, reels.1, reels.2]
  }

  /** `calculate_winnings`: twice the bet on a triple, nothing otherwise.
      Only the result shown is inspected, not which branch of `spin` made
      it. */
  function CalculateWinnings(bet: int, result: seq<Symbol>): (w: int)
    requires |result| == 3
    ensures IsTriple(result) ==> w == 2 * bet
    ensures !IsTriple(result) ==> w == 0
  {
    if result[0] == result[1] && result[1] == result[2] then bet * 2 else 0
  }

  /** The bet check in `play_slots`: positive and covered by the balance. */
  predicate BetAccepted(bet: int, cash: int) {
    !(bet <= 0 || bet > cash)
  }

  /** A forced win always pays twice the bet; otherwise the spin pays
      exactly when the independent draws coincide. */
  lemma SpinPayout(bet: int, roll: real, symbol: Symbol, reels: (Symbol, Symbol, Symbol))
    ensures roll < WinChance ==> CalculateWinnings(bet, Spin(roll, symbol, reels)) == 2 * bet
    ensures roll >= WinChance && bet != 0 ==>
              (CalculateWinnings(bet, Spin(roll, symbol, reels)) == 2 * bet <==> reels.0 == reels.1 == reels.2)
  {
  }

  /** A triple drawn on the "losing" branch pays too: seven-seven-seven
      with a roll of 0.9 returns 200 on a bet of 100. */
  lemma CoincidentalTriplePays()
    ensures CalculateWinnings(100, Spin(0.9, Cherry, (Seven, Seven, Seven))) == 200
  {
  }

  /** The opening of `play_slots`: read the balance, refuse a bet that is
      not positive or not covered by it, otherwise debit the bet. Returns
      whether the bet was taken, and the database after the debit. */
  function Stake(db: Db, m: MemberId, bet: int): (r: (bool, Db))
    ensures r.0 <==> 0 < bet <= GetCash(db, m)
    ensures !r.0 ==> r.1 == db
    ensures r.0 ==> m in db.money && GetCash(r.1, m) == GetCash(db, m) - bet
    ensures forall k :: k != m ==> GetCash(r.1, k) == GetCash(db, k)
    ensures r.1.money.Keys == db.money.Keys && r.1 == db.(money := r.1.money)
  {
    if BetAccepted(bet, GetCash(db, m)) then (true, RemoveCash(db, m, bet)) else (false, db)
  }

  /** A bet is taken only from a member with a Money row, and the debit
      never drives the balance below zero, even though `remove_cash` itself
      does not clamp. */
  lemma StakeKeepsBalance(db: Db, m: MemberId, bet: int)
    ensures Stake(db, m, bet).0 ==> GetCash(Stake(db, m, bet).1, m) >= 0
    ensures GetCash(db, m) >= 0 ==> GetCash(Stake(db, m, bet).1, m) >= 0
  {
  }
}
