/** Roulette (cogs/gambling.py, `RouletteGame` and the `roulette` command):
    an American wheel with 0 and 00, even-money bets on colour and parity,
    35-to-1 bets on a single number. The ball's landing slot, drawn with
    `random.choice`, is an input. */
module Roulette {
  import opened Basics
  import opened Text
  import opened Store

  datatype Colour = Green | Red | Black

  /** The wheel table, in the dictionary's insertion order: `random.choice`
      over its keys picks one of these entries. */
  const Wheel: seq<(string, Colour)> := [
    ("0", Green), ("00", Green), ("1", Red), ("2", Black), ("3", Red), ("4", Black), ("5", Red),
    ("6", Black), ("7", Red), ("8", Black), ("9", Red), ("10", Black), ("11", Black), ("12", Red),
    ("13", Black), ("14", Red), ("15", Black), ("16", Red), ("17", Black), ("18", Red), ("19", Red),
    ("20", Black), ("21", Red), ("22", Black), ("23", Red), ("24", Black), ("25", Red), ("26", Black),
    ("27", Red), ("28", Black), ("29", Black), ("30", Red), ("31", Black), ("32", Red), ("33", Black),
    ("34", Red), ("35", Black), ("36", Red)]

  /** The colour of each wheel entry, in order. */
  function Colours(): (cs: seq<Colour>)
    ensures |cs| == |Wheel|
    ensures forall i :: 0 <= i < |Wheel| ==> cs[i] == Wheel[i].1
  {
    seq(|Wheel|, i requires 0 <= i < |Wheel| => Wheel[i].1)
  }

  /** The usual colouring of the numbers 1..36: in 1-10 and 19-28 the odd
      numbers are red, in 11-18 and 29-36 the even ones. */
  function StandardColour(n: int): Colour {
    if n == 0 then Green
    else if (1 <= n <= 10 || 19 <= n <= 28) == (n % 2 == 1) then Red
    else Black
  }

  /** How many of the numbers 1..n have colour `c` under the standard
      colouring. */
  function CountUpTo(n: nat, c: Colour): nat {
    if n == 0 then 0 else CountUpTo(n - 1, c) + (if StandardColour(n) == c then 1 else 0)
  }

  /** Entries 0 and 1 are green; entry i >= 2 is the number i - 1 with its
      standard colour. */
  lemma WheelColours()
    ensures Wheel[0].1 == Green && Wheel[1].1 == Green
    ensures forall i :: 2 <= i < |Wheel| ==> Wheel[i].1 == StandardColour(i - 1)
  {
  }

  /** The keys are "0", "00", then the decimal renderings of 1..36 in
      order; `WheelKeysHigh` covers the second half. */
  lemma WheelKeysLow()
    ensures Wheel[0].0 == "0" && Wheel[1].0 == "00"
    ensures forall i :: 2 <= i < 20 ==> Wheel[i].0 == NatToString(i - 1)
  {
  }

  lemma WheelKeysHigh()
    ensures forall i :: 20 <= i < |Wheel| ==> Wheel[i].0 == NatToString(i - 1)
  {
  }

  /** No key repeats: distinct numbers render differently because
      `DigitsValue` reads each rendering back, and "0"/"00" read as 0. */
  lemma WheelKeysDistinct()
    ensures forall i, j :: 0 <= i < j < |Wheel| ==> Wheel[i].0 != Wheel[j].0
  {
    WheelKeysLow();
    WheelKeysHigh();
    forall i, j | 0 <= i < j < |Wheel| ensures Wheel[i].0 != Wheel[j].0 {
      DigitsValueOfNatToString(j - 1);
      if i >= 2 {
        DigitsValueOfNatToString(i - 1);
      } else {
        assert DigitsValue(Wheel[i].0) == 0;
      }
    }
  }

  /** In a colour sequence laid out like the wheel (entry i >= 2 is the
      number i - 1), colour `c` occurs among the entries for 1..k as often
      as in the standard colouring of 1..k. */
  lemma {:induction false} NumberColourCount(cs: seq<Colour>, k: nat, c: Colour)
    requires |cs| == 38 && k <= 36
    requires forall i :: 2 <= i < 38 ==> cs[i] == StandardColour(i - 1)
    ensures multiset(cs[2..k + 2])[c] == CountUpTo(k, c)
  {
    if k > 0 {
      NumberColourCount(cs, k - 1, c);
      assert cs[2..k + 2] == cs[2..k + 1] + [cs[k + 1]];
      assert multiset(cs[2..k + 2]) == multiset(cs[2..k + 1]) + multiset{cs[k + 1]};
      assert cs[k + 1] == StandardColour(k);
    }
  }

  /** An odd number and its successor below 37 get one red and one black. */
  lemma PairColours(n: int)
    requires 1 <= n < 36 && n % 2 == 1
    ensures StandardColour(n) != Green && StandardColour(n + 1) != Green
    ensures StandardColour(n) != StandardColour(n + 1)
  {
  }

  /** Each pair 2k-1, 2k of numbers lies inside one colour block, so the
      pair holds one red and one black number. */
  lemma {:induction false} StandardCounts(k: nat)
    requires k <= 18
    ensures CountUpTo(2 * k, Red) == k
    ensures CountUpTo(2 * k, Black) == k
    ensures CountUpTo(2 * k, Green) == 0
  {
    if k > 0 {
      StandardCounts(k - 1);
      var n := 2 * k;
      assert n - 2 == 2 * (k - 1);
      PairColours(n - 1);
    }
  }

  /** A colour sequence laid out like the wheel holds 18 red, 18 black and
      2 green entries. */
  lemma LayoutCounts(cs: seq<Colour>)
    requires |cs| == 38 && cs[0] == Green && cs[1] == Green
    requires forall i :: 2 <= i < 38 ==> cs[i] == StandardColour(i - 1)
    ensures multiset(cs)[Red] == 18 && multiset(cs)[Black] == 18 && multiset(cs)[Green] == 2
  {
    NumberColourCount(cs, 36, Red);
    NumberColourCount(cs, 36, Black);
    NumberColourCount(cs, 36, Green);
    StandardCounts(18);
    assert cs == cs[..2] + cs[2..38];
    assert multiset(cs[..2]) == multiset{Green, Green} by {
      assert cs[..2] == [Green, Green];
    }
  }

  /** The table has 38 entries with distinct keys: 18 red, 18 black and 2
      green. */
  lemma WheelShape()
    ensures |Wheel| == 38
    ensures forall i, j :: 0 <= i < j < |Wheel| ==> Wheel[i].0 != Wheel[j].0
    ensures multiset(Colours())[Red] == 18
    ensures multiset(Colours())[Black] == 18
    ensures multiset(Colours())[Green] == 2
  {
    WheelKeysDistinct();
    WheelColours();
    LayoutCounts(Colours());
  }

  // ---------------------------------------------------------------------
  // Bets
  // ---------------------------------------------------------------------

  /** The even-money bet spaces. */
  const OutsideBets: seq<string> := ["odd", "even", "black", "red"]

  /** The command's argument check: a keyword or a string of digits. Any
      other space is refused before the bet is looked at. */
  predicate IsBetSpace(space: string) {
    space in OutsideBets || IsDigits(space)
  }

  /** Payout multiplier: 2 for the even-money spaces, 35 for anything else. */
  function Multiplier(space: string): (k: int)
    ensures k == 2 || k == 35
    ensures k == 2 <==> space in OutsideBets
  {
    if space in OutsideBets then 2 else 35
  }

  /** Whether a bet on `space` wins when the ball lands on the wheel entry
      `slot`. Parity is that of `int(key)`, so "0" and "00" are even. A
      numeric space wins only on a key spelled the same way. */
  function Wins(space: string, slot: (string, Colour)): bool
    requires IsBetSpace(space)
  {
    var (key, colour) := slot;
    if space == "black" then colour == Black
    else if space == "red" then colour == Red
    else if space == "even" then DigitsValue(key) % 2 == 0
    else if space == "odd" then DigitsValue(key) % 2 != 0
    else space == key
  }

  /** `play_roulette`'s bet check: between 100 and 1000 and covered by the
      balance. */
  predicate BetAccepted(bet: int, cash: int) {
    !(bet < 100 || bet > cash || bet > 1000)
  }

  datatype Outcome =
    | InvalidSpace
    | InvalidBet
    | Spun(slot: (string, Colour), win: bool, db: Db)

  /** The `roulette` command: check the space, check the bet, debit it, let
      the ball land on `Wheel[landing]`, and credit `bet * multiplier` on a
      win. */
  function Play(db: Db, m: MemberId, bet: int, space: string, landing: nat): (r: Outcome)
    requires landing < |Wheel|
    ensures r == InvalidSpace <==> !IsBetSpace(space)
    ensures r == InvalidBet <==> IsBetSpace(space) && !BetAccepted(bet, GetCash(db, m))
    ensures r.Spun? ==> r.slot == Wheel[landing] && r.win == Wins(space, Wheel[landing])
    ensures r.Spun? ==> m in db.money
    ensures r.Spun? ==> r.db == db.(money := r.db.money) && r.db.money.Keys == db.money.Keys
    ensures r.Spun? ==> forall k :: k != m ==> GetCash(r.db, k) == GetCash(db, k)
  {
    if !IsBetSpace(space) then InvalidSpace
    else if !BetAccepted(bet, GetCash(db, m)) then InvalidBet
    else
      var debited := RemoveCash(db, m, bet);
      var slot := Wheel[landing];
      var win := Wins(space, slot);
      Spun(slot, win, if win then AddCash(debited, m, bet * Multiplier(space)) else debited)
  }

  /** An accepted bet changes the balance by `bet * (multiplier - 1)` on a
      win and by `-bet` on a loss, so no spin gains more than 34 times the
      bet. */
  lemma PlayNetChange(db: Db, m: MemberId, bet: int, space: string, landing: nat)
    requires landing < |Wheel|
    ensures var r := Play(db, m, bet, space, landing);
            && (r.Spun? && r.win ==> GetCash(r.db, m) == GetCash(db, m) + bet * (Multiplier(space) - 1))
            && (r.Spun? && !r.win ==> GetCash(r.db, m) == GetCash(db, m) - bet)
            && (r.Spun? ==> 100 <= bet <= 1000 && GetCash(r.db, m) >= 0)
            && (r.Spun? ==> GetCash(r.db, m) <= GetCash(db, m) + 34 * bet)
  {
  }

  /** A colour bet never wins on a green slot. */
  lemma GreenLosesColourBets(slot: (string, Colour))
    requires slot.1 == Green
    ensures !Wins("red", slot) && !Wins("black", slot)
  {
  }

  /** "0" and "00" both count as even. */
  lemma ZerosAreEven()
    ensures Wins("even", Wheel[0]) && Wins("even", Wheel[1])
    ensures !Wins("odd", Wheel[0]) && !Wins("odd", Wheel[1])
  {
  }

  /** A numeric bet wins exactly on the key spelled like it; "017" or "37"
      can never win. */
  lemma NumberWinsIffSame(space: string, slot: (string, Colour))
    requires IsDigits(space)
    ensures Wins(space, slot) <==> space == slot.0
  {
    assert IsDigit(space[0]);
  }

  /** 100 on "17" when the ball lands on 17 nets +3400; 100 on red when it
      lands on black 17 nets -100. */
  lemma PlayExamples(db: Db, m: MemberId)
    requires GetCash(db, m) == 1000
    ensures Play(db, m, 100, "17", 18).Spun?
    ensures GetCash(Play(db, m, 100, "17", 18).db, m) == 1000 + 3400
    ensures GetCash(Play(db, m, 100, "red", 18).db, m) == 1000 - 100
  {
    assert Wheel[18] == ("17", Black);
    assert IsDigits("17");
    assert "17" !in OutsideBets;
  }
}
